/**
 The three systems together: a request that passes the handler becomes a task on the vault cache and gets that task's
 answer, a client that goes away cancels the task, and the policy the handler reads is the one the reload task swaps.
 */
module EndToEnd {
  import opened Wrappers
  import opened Extraction
  import opened Lookup
  import opened Policy
  import opened Selector
  import A = Admission
  import CacheTheorems
  import R = ReloadTask
  import V = VaultCache

  datatype Config = Config(web: A.Config, cache: V.Config)

  datatype State = State(web: A.State, cache: V.State, policy: R.State)

  type Id = nat

  datatype Action =
    | Web(id: Id, step: A.Action)        // a step of the handler, or an arrival
    | Answer(id: Id)                     // the provider call returns
    | Cache(id: Id, move: V.Action)      // a step of a provider call, or of the clock
    | Reload(reload: R.Action)           // a step of the reload task, or of its environment

  function Init(cfg: Config, start: V.Instant, rules: PolicyRules, sources: Sources): State {
    State(A.Init(cfg.web, rules), V.Init(start), R.Init(rules, sources))
  }

  /** The selector the handler passes on. */
  function SelectorOf(r: A.Request): Result<BitwardenSelector, ClientError> {
    if r.decoded.Some? && r.decoded.value.Ok? then TryFrom(r.decoded.value.value) else Err(UnprefixedSelectorKey)
  }

  /** A handler step: passing the policy check starts a provider call, and going away during one cancels it. */
  function NextWeb(cfg: Config, s: State, id: Id, a: A.Action): Option<State> {
    if a.SwapPolicy? || a.Answer? then None else
      match A.Next(cfg.web, s.web, id, a)
      case None => None
      case Some(web) =>
        if a.Check? && id in web.requests && web.requests[id].pc.Calling? then
          var selector := SelectorOf(web.requests[id]);
          if selector.Err? then None else
            (match V.Next(cfg.cache, s.cache, id, V.Spawn(selector.value))
             case None => None
             case Some(cache) => Some(s.(web := web, cache := cache)))
        else if a.Disconnect? && id in s.web.requests && s.web.requests[id].pc.Calling? then
          (match V.Next(cfg.cache, s.cache, id, V.Cancel)
           case None => None
           case Some(cache) => Some(s.(web := web, cache := cache)))
        else Some(s.(web := web))
  }

  function Next(cfg: Config, s: State, a: Action): Option<State> {
    match a
    case Web(id, step) => NextWeb(cfg, s, id, step)
    case Answer(id) =>
      if id !in s.cache.tasks || !s.cache.tasks[id].pc.Done? then None else
        (match A.Next(cfg.web, s.web, id, A.Answer(s.cache.tasks[id].pc.answer))
         case None => None
         case Some(web) => Some(s.(web := web)))
    case Cache(id, move) =>
      if move.Spawn? || move.Cancel? then None else
        (match V.Next(cfg.cache, s.cache, id, move)
         case None => None
         case Some(cache) => Some(s.(cache := cache)))
    case Reload(reload) =>
      match R.Next(s.policy, reload)
      case None => None
      case Some(policy) =>
        if policy.rules == s.policy.rules then Some(s.(policy := policy))
        else Some(s.(policy := policy, web := s.web.(served := s.web.served + [policy.rules])))
  }

  function Run(cfg: Config, s: State, actions: seq<Action>): Option<State>
    decreases |actions|
  {
    if actions == [] then Some(s) else
      match Next(cfg, s, actions[0])
      case None => None
      case Some(t) => Run(cfg, t, actions[1..])
  }

  // ---- What ties the systems together ----

  /** These rules were served after some of the reloads. */
  ghost predicate WasServed(first: PolicyRules, policy: R.State, rules: PolicyRules) {
    exists k :: 0 <= k <= |policy.seen| && rules == AfterReloads(first, policy.sources, policy.seen[..k])
  }

  ghost predicate WereServed(first: PolicyRules, policy: R.State, served: seq<PolicyRules>) {
    forall i :: 0 <= i < |served| ==> WasServed(first, policy, served[i])
  }

  ghost predicate PolicyTie(first: PolicyRules, s: State) {
    WereServed(first, s.policy, s.web.served)
  }

  /** What the handler reads is what the reload task has put in force. */
  predicate InForce(web: A.State, policy: R.State) {
    web.served != [] && web.served[|web.served| - 1] == policy.rules
  }

  /** A request and its task: same selector while it has one, and no answer but the task's. */
  predicate Tied(cache: V.State, id: Id, r: A.Request) {
    && (r.calls == 0 ==> id !in cache.tasks && r.answer.None?)
    && (r.calls == 1 ==> id in cache.tasks && SelectorOf(r) == Ok(cache.tasks[id].selector))
    && (r.answer.Some? ==> id in cache.tasks && cache.tasks[id].pc.Done? && cache.tasks[id].pc.answer == r.answer.value)
  }

  ghost predicate CacheTie(web: A.State, cache: V.State) {
    && (forall id :: id in web.requests ==> Tied(cache, id, web.requests[id]))
    && (forall id :: id in cache.tasks ==> id in web.requests)
  }

  ghost predicate Inv(cfg: Config, first: PolicyRules, s: State) {
    && A.Inv(cfg.web, s.web) && V.Inv(cfg.cache, s.cache) && R.Inv(s.policy, first)
    && PolicyTie(first, s) && InForce(s.web, s.policy) && CacheTie(s.web, s.cache)
  }

  // ---- Steps ----

  /** What a handler step does to the other requests, to the calls and to the answers. */
  lemma WebStep(cfg: A.Config, s: A.State, id: Id, a: A.Action)
    requires A.Inv(cfg, s) && A.Next(cfg, s, id, a).Some? && !a.SwapPolicy?
    ensures var u := A.Next(cfg, s, id, a).value;
            && u.served == s.served && id in u.requests
            && u.requests == s.requests[id := u.requests[id]]
            && (a.Arrive? ==> id !in s.requests && u.requests[id].calls == 0 && u.requests[id].answer.None?)
            && (!a.Arrive? ==>
                  && id in s.requests
                  && var (r, m) := (s.requests[id], u.requests[id]);
                  && m.calls == r.calls + (if a.Check? && m.pc.Calling? then 1 else 0)
                  && m.answer == (if a.Answer? then Some(a.answer) else r.answer)
                  && (a.Check? && m.pc.Calling? ==> r.calls == 0 && r.answer.None?)
                  && (r.calls == 1 ==> SelectorOf(m) == SelectorOf(r))
                  && (a.Answer? ==> r.calls == 1))
  {
    A.StepShape(cfg, s, id, a);
    if id in s.requests {
      assert A.RequestInv(cfg, s, s.requests[id]);
    }
  }

  /** A step of a task keeps every tie: answered tasks are done, and done tasks stay as they are. */
  lemma CacheKeepsTies(cfg: V.Config, web: A.State, s: V.State, id: Id, a: V.Action)
    requires V.Inv(cfg, s) && CacheTie(web, s) && V.Next(cfg, s, id, a).Some? && !a.Spawn?
    ensures CacheTie(web, V.Next(cfg, s, id, a).value)
  {
    var u := V.Next(cfg, s, id, a).value;
    if a.Tick? {
      assert u.tasks == s.tasks;
    } else {
      V.StepShape(cfg, s, id, a);
      CacheTheorems.FinishedStaysPut(cfg, s, id, a);
      forall o | o in web.requests
        ensures Tied(u, o, web.requests[o])
      {
        assert Tied(s, o, web.requests[o]);
      }
    }
  }

  /** A handler step that neither starts nor ends a call keeps every tie. */
  lemma WebKeepsTies(cfg: A.Config, web: A.State, cache: V.State, id: Id, a: A.Action)
    requires A.Inv(cfg, web) && CacheTie(web, cache) && A.Next(cfg, web, id, a).Some?
    requires !a.SwapPolicy? && !a.Answer?
    requires id in A.Next(cfg, web, id, a).value.requests
    requires !(a.Check? && A.Next(cfg, web, id, a).value.requests[id].pc.Calling?)
    ensures CacheTie(A.Next(cfg, web, id, a).value, cache)
  {
    var u := A.Next(cfg, web, id, a).value;
    WebStep(cfg, web, id, a);
    forall o | o in u.requests
      ensures Tied(cache, o, u.requests[o])
    {
      if o in web.requests {
        assert Tied(cache, o, web.requests[o]);
      }
    }
  }

  /** The answer of the request's own task keeps every tie. */
  lemma AnswerKeepsTies(web: A.State, u: A.State, cache: V.State, id: Id)
    requires CacheTie(web, cache) && id in cache.tasks && cache.tasks[id].pc.Done?
    requires id in web.requests && id in u.requests && u.requests == web.requests[id := u.requests[id]]
    requires web.requests[id].calls == 1 && u.requests[id].calls == 1
    requires SelectorOf(u.requests[id]) == SelectorOf(web.requests[id])
    requires u.requests[id].answer == Some(cache.tasks[id].pc.answer)
    ensures CacheTie(u, cache)
  {
    forall o | o in u.requests
      ensures Tied(cache, o, u.requests[o])
    {
      assert Tied(cache, o, web.requests[o]);
    }
  }

  /** Passing the check starts a task with the request's own selector. */
  lemma CheckKeepsTies(web: A.State, u: A.State, s: V.State, id: Id, selector: BitwardenSelector)
    requires CacheTie(web, s) && id in web.requests && id in u.requests && u.requests == web.requests[id := u.requests[id]]
    requires id !in s.tasks && u.requests[id].calls == 1 && u.requests[id].answer.None?
    requires SelectorOf(u.requests[id]) == Ok(selector)
    ensures CacheTie(u, s.(tasks := s.tasks[id := V.Task(selector, s.now, V.AwaitCache(V.First))]))
  {
    var t := s.(tasks := s.tasks[id := V.Task(selector, s.now, V.AwaitCache(V.First))]);
    forall o | o in u.requests
      ensures Tied(t, o, u.requests[o])
    {
      if o != id {
        assert Tied(s, o, web.requests[o]);
      }
    }
  }

  lemma ServedStays(first: PolicyRules, s: R.State, a: R.Action, rules: PolicyRules)
    requires R.Next(s, a).Some? && WasServed(first, s, rules)
    ensures WasServed(first, R.Next(s, a).value, rules)
  {
    var u := R.Next(s, a).value;
    var k :| 0 <= k <= |s.seen| && rules == AfterReloads(first, s.sources, s.seen[..k]);
    assert u.sources == s.sources && s.seen <= u.seen;
    assert u.seen[..k] == s.seen[..k];
  }

  lemma CurrentIsServed(first: PolicyRules, s: R.State)
    requires R.Inv(s, first)
    ensures WasServed(first, s, s.rules)
  {
    assert s.seen[..|s.seen|] == s.seen;
  }

  /** Serving new rules is a step of the handler's environment. */
  lemma SwapStep(cfg: A.Config, web: A.State, rules: PolicyRules)
    requires A.Inv(cfg, web)
    ensures A.Inv(cfg, web.(served := web.served + [rules]))
  {
    A.InvStep(cfg, web, 0, A.SwapPolicy(rules));
  }

  /** What the reload task swaps in is in force and served from then on. */
  lemma ReloadKeepsTies(first: PolicyRules, web: A.State, policy: R.State, a: R.Action)
    requires R.Inv(policy, first) && WereServed(first, policy, web.served) && InForce(web, policy)
    requires R.Next(policy, a).Some?
    ensures var u := R.Next(policy, a).value;
            var after := if u.rules == policy.rules then web else web.(served := web.served + [u.rules]);
            WereServed(first, u, after.served) && InForce(after, u)
  {
    R.InvStep(policy, a, first);
    ServedGrows(first, policy, a, web.served);
  }

  /** A step of the reload task keeps everything. */
  lemma ReloadStep(cfg: Config, first: PolicyRules, s: State, a: R.Action)
    requires Inv(cfg, first, s) && Next(cfg, s, Reload(a)).Some?
    ensures Inv(cfg, first, Next(cfg, s, Reload(a)).value)
  {
    var u := Next(cfg, s, Reload(a)).value;
    R.InvStep(s.policy, a, first);
    if u.policy.rules != s.policy.rules {
      SwapStep(cfg.web, s.web, u.policy.rules);
    }
    ReloadKeepsTies(first, s.web, s.policy, a);
  }

  /** The rules served so far stay served, and those in force after the step join them. */
  lemma ServedGrows(first: PolicyRules, s: R.State, a: R.Action, served: seq<PolicyRules>)
    requires R.Next(s, a).Some? && R.Inv(R.Next(s, a).value, first) && WereServed(first, s, served)
    ensures var u := R.Next(s, a).value; WereServed(first, u, served) && WereServed(first, u, served + [u.rules])
  {
    CurrentIsServed(first, R.Next(s, a).value);
    forall i | 0 <= i < |served|
      ensures WasServed(first, R.Next(s, a).value, served[i])
    {
      ServedStays(first, s, a, served[i]);
    }
  }

  lemma CacheStep(cfg: Config, first: PolicyRules, s: State, id: Id, a: V.Action)
    requires Inv(cfg, first, s) && Next(cfg, s, Cache(id, a)).Some?
    ensures Inv(cfg, first, Next(cfg, s, Cache(id, a)).value)
  {
    V.InvStep(cfg.cache, s.cache, id, a);
    CacheKeepsTies(cfg.cache, s.web, s.cache, id, a);
  }

  lemma AnswerStep(cfg: Config, first: PolicyRules, s: State, id: Id)
    requires Inv(cfg, first, s) && Next(cfg, s, Answer(id)).Some?
    ensures Inv(cfg, first, Next(cfg, s, Answer(id)).value)
  {
    var a := A.Answer(s.cache.tasks[id].pc.answer);
    A.InvStep(cfg.web, s.web, id, a);
    WebStep(cfg.web, s.web, id, a);
    AnswerKeepsTies(s.web, A.Next(cfg.web, s.web, id, a).value, s.cache, id);
  }

  /** A step of the handler, and of a task with it, that leaves the policies as they are. */
  lemma PoliciesStay(cfg: Config, first: PolicyRules, s: State, web: A.State, cache: V.State)
    requires Inv(cfg, first, s) && web.served == s.web.served
    requires A.Inv(cfg.web, web) && V.Inv(cfg.cache, cache) && CacheTie(web, cache)
    ensures Inv(cfg, first, s.(web := web, cache := cache))
  {
  }

  /** The policy check passes: the provider call begins. */
  lemma CallStep(cfg: Config, first: PolicyRules, s: State, id: Id)
    requires Inv(cfg, first, s) && NextWeb(cfg, s, id, A.Check).Some?
    requires id in NextWeb(cfg, s, id, A.Check).value.web.requests
    requires NextWeb(cfg, s, id, A.Check).value.web.requests[id].pc.Calling?
    ensures Inv(cfg, first, NextWeb(cfg, s, id, A.Check).value)
  {
    var u := NextWeb(cfg, s, id, A.Check).value;
    WebStep(cfg.web, s.web, id, A.Check);
    A.InvStep(cfg.web, s.web, id, A.Check);
    var selector := SelectorOf(u.web.requests[id]).value;
    V.InvStep(cfg.cache, s.cache, id, V.Spawn(selector));
    V.StepEffects(cfg.cache, s.cache, id, V.Spawn(selector));
    CheckKeepsTies(s.web, u.web, s.cache, id, selector);
    PoliciesStay(cfg, first, s, u.web, u.cache);
  }

  /** The client goes away during the call: the call is cancelled. */
  lemma HangUpStep(cfg: Config, first: PolicyRules, s: State, id: Id)
    requires Inv(cfg, first, s)
    requires A.Next(cfg.web, s.web, id, A.Disconnect).Some? && V.Next(cfg.cache, s.cache, id, V.Cancel).Some?
    ensures var (web, cache) := (A.Next(cfg.web, s.web, id, A.Disconnect).value, V.Next(cfg.cache, s.cache, id, V.Cancel).value);
            Inv(cfg, first, s.(web := web, cache := cache))
  {
    WebStep(cfg.web, s.web, id, A.Disconnect);
    HangUpKeepsTies(cfg, s.web, s.cache, id);
    A.InvStep(cfg.web, s.web, id, A.Disconnect);
    V.InvStep(cfg.cache, s.cache, id, V.Cancel);
    PoliciesStay(cfg, first, s, A.Next(cfg.web, s.web, id, A.Disconnect).value, V.Next(cfg.cache, s.cache, id, V.Cancel).value);
  }

  lemma HangUpKeepsTies(cfg: Config, web: A.State, cache: V.State, id: Id)
    requires A.Inv(cfg.web, web) && V.Inv(cfg.cache, cache) && CacheTie(web, cache)
    requires A.Next(cfg.web, web, id, A.Disconnect).Some? && V.Next(cfg.cache, cache, id, V.Cancel).Some?
    ensures CacheTie(A.Next(cfg.web, web, id, A.Disconnect).value, V.Next(cfg.cache, cache, id, V.Cancel).value)
  {
    WebStep(cfg.web, web, id, A.Disconnect);
    WebKeepsTies(cfg.web, web, cache, id, A.Disconnect);
    CacheKeepsTies(cfg.cache, A.Next(cfg.web, web, id, A.Disconnect).value, cache, id, V.Cancel);
  }

  lemma PlainWebStep(cfg: Config, first: PolicyRules, s: State, id: Id, a: A.Action)
    requires Inv(cfg, first, s) && NextWeb(cfg, s, id, a).Some?
    requires A.Next(cfg.web, s.web, id, a).Some? && NextWeb(cfg, s, id, a).value == s.(web := A.Next(cfg.web, s.web, id, a).value)
    requires !a.SwapPolicy? && !a.Answer? && id in A.Next(cfg.web, s.web, id, a).value.requests
    requires !(a.Check? && A.Next(cfg.web, s.web, id, a).value.requests[id].pc.Calling?)
    ensures Inv(cfg, first, NextWeb(cfg, s, id, a).value)
  {
    WebStep(cfg.web, s.web, id, a);
    A.InvStep(cfg.web, s.web, id, a);
    WebKeepsTies(cfg.web, s.web, s.cache, id, a);
    PoliciesStay(cfg, first, s, A.Next(cfg.web, s.web, id, a).value, s.cache);
  }

  lemma WebActionStep(cfg: Config, first: PolicyRules, s: State, id: Id, a: A.Action)
    requires Inv(cfg, first, s) && NextWeb(cfg, s, id, a).Some?
    ensures Inv(cfg, first, NextWeb(cfg, s, id, a).value)
  {
    WebStep(cfg.web, s.web, id, a);
    if a.Check? && A.Next(cfg.web, s.web, id, a).value.requests[id].pc.Calling? {
      CallStep(cfg, first, s, id);
    } else if a.Disconnect? && s.web.requests[id].pc.Calling? {
      HangUpStep(cfg, first, s, id);
    } else {
      PlainWebStep(cfg, first, s, id, a);
    }
  }

  lemma InvStep(cfg: Config, first: PolicyRules, s: State, a: Action)
    requires Inv(cfg, first, s) && Next(cfg, s, a).Some?
    ensures Inv(cfg, first, Next(cfg, s, a).value)
  {
    match a {
      case Web(id, step) => WebActionStep(cfg, first, s, id, step);
      case Answer(id) => AnswerStep(cfg, first, s, id);
      case Cache(id, move) => CacheStep(cfg, first, s, id, move);
      case Reload(reload) => ReloadStep(cfg, first, s, reload);
    }
  }

  lemma {:induction false} InvRun(cfg: Config, first: PolicyRules, s: State, actions: seq<Action>)
    requires Inv(cfg, first, s) && Run(cfg, s, actions).Some?
    ensures Inv(cfg, first, Run(cfg, s, actions).value)
    ensures Run(cfg, s, actions).value.policy.sources == s.policy.sources
    decreases |actions|
  {
    if actions != [] {
      InvStep(cfg, first, s, actions[0]);
      SourcesStay(cfg, s, actions[0]);
      InvRun(cfg, first, Next(cfg, s, actions[0]).value, actions[1..]);
    }
  }

  lemma SourcesStay(cfg: Config, s: State, a: Action)
    requires Next(cfg, s, a).Some?
    ensures Next(cfg, s, a).value.policy.sources == s.policy.sources
  {
  }

  lemma InvInit(cfg: Config, start: V.Instant, rules: PolicyRules, sources: Sources)
    requires cfg.cache.minInstant <= start
    ensures Inv(cfg, rules, Init(cfg, start, rules, sources))
  {
    A.InvInit(cfg.web, rules);
    V.InvInit(cfg.cache, start);
    CurrentIsServed(rules, R.Init(rules, sources));
  }

  /** A task can be started, and cancelled exactly at its awaits. */
  lemma SpawnAndCancel(cfg: V.Config, s: V.State, id: Id, selector: BitwardenSelector)
    ensures V.Next(cfg, s, id, V.Spawn(selector)).Some? <==> id !in s.tasks
    ensures V.Next(cfg, s, id, V.Cancel).Some? <==> id in s.tasks && V.AtAwait(s.tasks[id].pc)
  {
  }

  /** Passing the check comes with a selector and no task yet. */
  lemma CheckHasSelector(cfg: A.Config, s: A.State, id: Id)
    requires A.Next(cfg, s, id, A.Check).Some? && id in A.Next(cfg, s, id, A.Check).value.requests
    requires A.Next(cfg, s, id, A.Check).value.requests[id].pc.Calling?
    ensures SelectorOf(A.Next(cfg, s, id, A.Check).value.requests[id]).Ok?
  {
  }

  /** So a call can be started. */
  lemma CallCanStart(cfg: Config, web: A.State, cache: V.State, id: Id)
    requires A.Inv(cfg.web, web) && CacheTie(web, cache)
    requires A.Next(cfg.web, web, id, A.Check).Some? && id in A.Next(cfg.web, web, id, A.Check).value.requests
    requires A.Next(cfg.web, web, id, A.Check).value.requests[id].pc.Calling?
    ensures var selector := SelectorOf(A.Next(cfg.web, web, id, A.Check).value.requests[id]);
            selector.Ok? && V.Next(cfg.cache, cache, id, V.Spawn(selector.value)).Some?
  {
    WebStep(cfg.web, web, id, A.Check);
    CheckHasSelector(cfg.web, web, id);
    assert Tied(cache, id, web.requests[id]);
    SpawnAndCancel(cfg.cache, cache, id, SelectorOf(A.Next(cfg.web, web, id, A.Check).value.requests[id]).value);
  }

  /** Putting the systems together blocks no handler step. */
  lemma NothingIsBlocked(cfg: Config, s: State, id: Id, a: A.Action)
    requires A.Inv(cfg.web, s.web) && CacheTie(s.web, s.cache)
    requires A.Next(cfg.web, s.web, id, a).Some? && !a.SwapPolicy? && !a.Answer?
    requires a.Disconnect? && id in s.web.requests ==> !s.web.requests[id].pc.Calling?
    ensures NextWeb(cfg, s, id, a).Some?
  {
    WebStep(cfg.web, s.web, id, a);
    if a.Check? && A.Next(cfg.web, s.web, id, a).value.requests[id].pc.Calling? {
      CallCanStart(cfg, s.web, s.cache, id);
    }
  }

  /** During a call there is a task for it. */
  lemma CallHasTask(cfg: A.Config, web: A.State, cache: V.State, id: Id)
    requires A.Inv(cfg, web) && CacheTie(web, cache) && id in web.requests && web.requests[id].pc.Calling?
    ensures id in cache.tasks
  {
    assert A.RequestInv(cfg, web, web.requests[id]);
    assert Tied(cache, id, web.requests[id]);
  }

  /** During a call, the client can go away exactly while the task waits for something. */
  lemma HangUpExactly(cfg: Config, s: State, id: Id)
    requires A.Inv(cfg.web, s.web) && CacheTie(s.web, s.cache)
    requires id in s.web.requests && s.web.requests[id].pc.Calling? && A.Next(cfg.web, s.web, id, A.Disconnect).Some?
    ensures id in s.cache.tasks && (NextWeb(cfg, s, id, A.Disconnect).Some? <==> V.AtAwait(s.cache.tasks[id].pc))
  {
    CallHasTask(cfg.web, s.web, s.cache, id);
    SpawnAndCancel(cfg.cache, s.cache, id, BitwardenSelector("", None));
  }

  // ---- When a reload takes effect ----

  /** No step takes back what was served, or has a request judged by anything older. */
  lemma JudgedStep(cfg: Config, s: State, a: Action, id: Id, n: nat)
    requires A.JudgedSince(s.web, id, n) && Next(cfg, s, a).Some?
    ensures A.JudgedSince(Next(cfg, s, a).value.web, id, n)
    ensures s.web.served <= Next(cfg, s, a).value.web.served
  {
    match a {
      case Web(o, step) => A.JudgedStep(cfg.web, s.web, A.Event(o, step), id, n);
      case Answer(o) => A.JudgedStep(cfg.web, s.web, A.Event(o, A.Answer(s.cache.tasks[o].pc.answer)), id, n);
      case _ =>
    }
  }

  lemma {:induction false} JudgedRun(cfg: Config, s: State, actions: seq<Action>, id: Id, n: nat)
    requires A.JudgedSince(s.web, id, n) && Run(cfg, s, actions).Some?
    ensures A.JudgedSince(Run(cfg, s, actions).value.web, id, n)
    ensures s.web.served <= Run(cfg, s, actions).value.web.served
    decreases |actions|
  {
    if actions != [] {
      JudgedStep(cfg, s, actions[0], id, n);
      JudgedRun(cfg, Next(cfg, s, actions[0]).value, actions[1..], id, n);
    }
  }

  /**
   A reload takes effect at once (`InForce` holds in every reachable state): a request not yet judged is, if ever, judged by the rules that the reload task has in
   force now, or by rules it put in force later.
   */
  lemma {:induction false} ReloadTakesEffect(cfg: Config, s: State, actions: seq<Action>, u: State, id: Id)
    requires InForce(s.web, s.policy) && Run(cfg, s, actions) == Some(u)
    requires id in s.web.requests ==> s.web.requests[id].snapshot.None?
    requires id in u.web.requests && u.web.requests[id].snapshot.Some?
    ensures var (now, judgedBy) := (|s.web.served| - 1, u.web.requests[id].snapshot.value);
            0 <= now <= judgedBy && now < |u.web.served| && u.web.served[now] == s.policy.rules
  {
    JudgedRun(cfg, s, actions, id, |s.web.served| - 1);
  }

  // ---- The end-to-end promise ----

  /** No error is answered with 200. */
  lemma ErrorsAreNot200(e: ClientError)
    ensures A.ErrorReply(e).status != 200
  {
  }

  /** A 200 is an answer with a document, to an authorized request that one snapshot allows. */
  lemma OkReply(cfg: A.Config, s: A.State, r: A.Request)
    requires A.RequestInv(cfg, s, r) && r.pc.Completed? && r.pc.reply.status == 200
    ensures A.Cleared(cfg, s, r) && r.answer.Some? && r.answer.value.Ok? && r.calls == 1
  {
    if SelectorOf(r).Err? && r.decoded.Some? && r.decoded.value.Ok? {
      ErrorsAreNot200(SelectorOf(r).error);
    }
    if r.answer.Some? && r.answer.value.Err? {
      ErrorsAreNot200(r.answer.value.error);
    }
  }

  /**
   The document is the plain lookup of the selector on this vault, which is recent enough for the call; so it holds what
   the personal item that was found answers, and nothing else.
   */
  ghost predicate ServedFrom(cfg: V.Config, s: V.State, id: Id, selector: BitwardenSelector, document: SecretDocument, v: V.CachedVault) {
    && id in s.tasks && V.FromOneFetch(cfg, s, v) && V.Recent(cfg, s.tasks[id].started, v.fetchedAt)
    && Resolve(cfg.p, v.sync, v.session.userKey, selector) == Ok(document)
    && var found := ResolveCipher(cfg.p, v.sync, v.session.userKey, selector.key);
       found.Ok? && found.value.organizationId.None? && AnswersFor(found.value, selector.property, Ok(document))
  }

  /**
   These are the rules after so many reloads, and they let the key through: by allow-all, by an inline entry, or by the
   files of the last good read up to then.
   */
  ghost predicate GrantedAfter(args: PolicyArgs, startup: Files, seen: seq<Files>, k: nat, rules: PolicyRules, key: string)
    requires FromArgs(args, startup).Ok?
  {
    var (first, sources) := FromArgs(args, startup).value;
    && k <= |seen| && rules == AfterReloads(first, sources, seen[..k])
    && (args.allowAll || Granted(sources, LastGood(sources, startup, seen[..k]), key))
  }

  /**
   Every document that leaves with a 200 went to an authorized request; it is the plain lookup of the requested selector
   on an installed vault, less than a TTL old when the call began (with no TTL: fetched after that); and its key was
   granted, by the rules the handler read after the request arrived, through the inline entries or the policy files of
   the last good read up to then.
   */
  lemma EveryDocumentIsEarned(cfg: Config, start: V.Instant, args: PolicyArgs, startup: Files, actions: seq<Action>, id: Id)
    requires cfg.cache.minInstant <= start && FromArgs(args, startup).Ok?
    requires Run(cfg, Init(cfg, start, FromArgs(args, startup).value.0, FromArgs(args, startup).value.1), actions).Some?
    requires var s := Run(cfg, Init(cfg, start, FromArgs(args, startup).value.0, FromArgs(args, startup).value.1), actions).value;
             id in s.web.requests && s.web.requests[id].pc.Completed? && s.web.requests[id].pc.reply.status == 200
    ensures var (first, sources) := FromArgs(args, startup).value;
            var s := Run(cfg, Init(cfg, start, first, sources), actions).value;
            var r := s.web.requests[id];
            && A.IsAuthorized(cfg.web.auth, r.header)
            && SelectorOf(r).Ok? && r.answer.Some? && r.answer.value.Ok?
            && (exists i :: 0 <= i < |s.cache.installs|
                  && ServedFrom(cfg.cache, s.cache, id, SelectorOf(r).value, r.answer.value.value, s.cache.installs[i]))
            && r.snapshot.Some? && r.arrivedUnder <= r.snapshot.value < |s.web.served|
            && (exists k: nat ::
                  GrantedAfter(args, startup, s.policy.seen, k, s.web.served[r.snapshot.value], SelectorOf(r).value.key))
  {
    var (first, sources) := FromArgs(args, startup).value;
    var s := Run(cfg, Init(cfg, start, first, sources), actions).value;
    var r := s.web.requests[id];
    InvInit(cfg, start, first, sources);
    InvRun(cfg, first, Init(cfg, start, first, sources), actions);
    assert A.RequestInv(cfg.web, s.web, r);
    OkReply(cfg.web, s.web, r);
    DocumentIsALookup(cfg, s.web, s.cache, id);
    var key := SelectorOf(r).value.key;
    var rules := s.web.served[r.snapshot.value];
    assert WasServed(first, s.policy, rules);
    var k :| 0 <= k <= |s.policy.seen| && rules == AfterReloads(first, s.policy.sources, s.policy.seen[..k]);
    DecisionsFollowLastGood(args, startup, s.policy.seen[..k], key);
    assert GrantedAfter(args, startup, s.policy.seen, k, rules, key);
  }

  lemma DocumentIsALookup(cfg: Config, web: A.State, cache: V.State, id: Id)
    requires V.Inv(cfg.cache, cache) && CacheTie(web, cache) && id in web.requests
    requires var r := web.requests[id]; r.calls == 1 && r.answer.Some? && r.answer.value.Ok?
    ensures SelectorOf(web.requests[id]).Ok?
    ensures exists i :: 0 <= i < |cache.installs|
              && ServedFrom(cfg.cache, cache, id, SelectorOf(web.requests[id]).value, web.requests[id].answer.value.value,
                            cache.installs[i])
  {
    var r := web.requests[id];
    assert Tied(cache, id, r);
    var task := cache.tasks[id];
    assert V.TaskInv(cfg.cache, cache, task);
    var i :| 0 <= i < |cache.installs| && V.Recent(cfg.cache, task.started, cache.installs[i].fetchedAt)
      && task.pc.answer == Resolve(cfg.cache.p, cache.installs[i].sync, cache.installs[i].session.userKey, task.selector);
    assert V.FromOneFetch(cfg.cache, cache, cache.installs[i]);
    ResolveMeans(cfg.cache.p, cache.installs[i].sync, cache.installs[i].session.userKey, task.selector);
    assert ServedFrom(cfg.cache, cache, id, SelectorOf(r).value, r.answer.value.value, cache.installs[i]);
  }
}
