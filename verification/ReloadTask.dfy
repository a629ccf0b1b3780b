/**
 The policy reload task racing the shutdown signal, one transition per await or atomic operation.
 A run is any sequence of actions: ticks and the signal belong to the environment, the rest to the task.
 */
module ReloadTask {
  import opened Wrappers
  import opened PolicyFile
  import opened Policy
  import opened Lifecycle
  import opened Census

  /** How far `mark_shutting_down` has come. */
  datatype Signal = NotSent | FlagStored | Sent

  /** The `shutdown_requested()` future of the current `select!`. */
  datatype ShutdownFuture = Unpolled | FlagWasClear | Registered

  datatype Pc =
    | FirstTick
    | LoopTop
    | Select(shutdown: ShutdownFuture)
    | CheckFlag
    | Reloading
    | Recording(outcome: Result<bool, PolicyError>)
    | Exited

  datatype Counters = Counters(success: nat, same: nat, failure: nat)

  datatype State = State(
    latch: Latch, signal: Signal, tickDue: bool, pc: Pc,
    rules: PolicyRules, sources: Sources, counters: Counters,
    seen: seq<Files>,     // the files each reload saw
    lateReloads: nat      // reloads performed after the flag was stored
  )

  datatype Action =
    | TimePasses
    | StoreFlag
    | NotifyOne
    | TakeFirstTick
    | EnterSelect
    | PollTick
    | LoadFlag
    | PollLatch
    | PollRegistered
    | Recheck
    | Reload(files: Files)
    | RecordOutcome
  {
    predicate ByTask() {
      !TimePasses? && !StoreFlag? && !NotifyOne?
    }
  }

  function Init(rules: PolicyRules, sources: Sources): State {
    State(Latch(false, false, NoWaiter), NotSent, false, FirstTick, rules, sources, Counters(0, 0, 0), [], 0)
  }

  function Count(c: Counters, outcome: Result<bool, PolicyError>): Counters {
    match outcome
    case Ok(true) => c.(success := c.success + 1)
    case Ok(false) => c.(same := c.same + 1)
    case Err(_) => c.(failure := c.failure + 1)
  }

  /** The state after the action, or None when the action is not enabled. */
  function Next(s: State, a: Action): Option<State> {
    match a
    case TimePasses =>
      Some(s.(tickDue := true))
    case StoreFlag =>
      if s.signal.NotSent? then Some(s.(signal := FlagStored, latch := s.latch.StoreFlag())) else None
    case NotifyOne =>
      if s.signal.FlagStored? then Some(s.(signal := Sent, latch := s.latch.NotifyOne())) else None
    case TakeFirstTick =>
      if s.pc.FirstTick? then Some(s.(pc := LoopTop)) else None
    case EnterSelect =>
      if s.pc.LoopTop? then Some(s.(pc := Select(Unpolled))) else None
    case PollTick =>
      if s.pc.Select? && !s.pc.shutdown.FlagWasClear? && s.tickDue
      then Some(s.(pc := CheckFlag, tickDue := false, latch := s.latch.DropWaiter())) else None
    case LoadFlag =>
      if s.pc == Select(Unpolled)
      then Some(s.(pc := if s.latch.shuttingDown then Exited else Select(FlagWasClear))) else None
    case PollLatch =>
      if s.pc == Select(FlagWasClear)
      then
        var (latch, ready) := s.latch.PollNotified();
        Some(s.(pc := if ready then Exited else Select(Registered), latch := latch))
      else None
    case PollRegistered =>
      if s.pc == Select(Registered) && s.latch.waiter.Notified?
      then Some(s.(pc := Exited, latch := s.latch.(waiter := NoWaiter))) else None
    case Recheck =>
      if s.pc.CheckFlag? then Some(s.(pc := if s.latch.shuttingDown then Exited else Reloading)) else None
    case Reload(files) =>
      if s.pc.Reloading?
      then
        var (rules, outcome) := Reloaded(s.rules, s.sources, files);
        Some(s.(pc := Recording(outcome), rules := rules, seen := s.seen + [files],
                lateReloads := s.lateReloads + if s.latch.shuttingDown then 1 else 0))
      else None
    case RecordOutcome =>
      if s.pc.Recording? then Some(s.(pc := LoopTop, counters := Count(s.counters, s.pc.outcome))) else None
  }

  /** The state after a whole sequence of actions, or None when one of them was not enabled. */
  function Run(s: State, actions: seq<Action>): Option<State>
    decreases |actions|
  {
    if actions == [] then Some(s) else
      match Next(s, actions[0])
      case None => None
      case Some(t) => Run(t, actions[1..])
  }

  /** What the reloads report, given the files that each of them sees. */
  function Outcomes(first: PolicyRules, sources: Sources, seen: seq<Files>): seq<Result<bool, PolicyError>> {
    if seen == [] then []
    else
      var init := seen[..|seen| - 1];
      Outcomes(first, sources, init) + [Reloaded(AfterReloads(first, sources, init), sources, seen[|seen| - 1]).1]
  }

  /** The counters after those outcomes. */
  function Tally(outcomes: seq<Result<bool, PolicyError>>): Counters {
    if outcomes == [] then Counters(0, 0, 0)
    else Count(Tally(outcomes[..|outcomes| - 1]), outcomes[|outcomes| - 1])
  }

  predicate Changed(outcome: Result<bool, PolicyError>) {
    outcome == Ok(true)
  }

  predicate Same(outcome: Result<bool, PolicyError>) {
    outcome == Ok(false)
  }

  predicate Failed(outcome: Result<bool, PolicyError>) {
    outcome.Err?
  }

  /** Each counter counts its outcomes. */
  lemma {:induction false} TallyMeaning(outcomes: seq<Result<bool, PolicyError>>)
    ensures var c := Tally(outcomes);
            && c.success == |Positions(outcomes, Changed)|
            && c.same == |Positions(outcomes, Same)|
            && c.failure == |Positions(outcomes, Failed)|
  {
    if outcomes != [] {
      var init, last := outcomes[..|outcomes| - 1], outcomes[|outcomes| - 1];
      assert outcomes == init + [last];
      TallyMeaning(init);
      PositionsSnoc(init, last, Changed);
      PositionsSnoc(init, last, Same);
      PositionsSnoc(init, last, Failed);
    } else {
      PositionsNone(outcomes, Changed);
      PositionsNone(outcomes, Same);
      PositionsNone(outcomes, Failed);
    }
  }

  /** The counters stand for all reloads so far, but for the one about to be recorded. */
  predicate Tallied(s: State, first: PolicyRules) {
    var outcomes := Outcomes(first, s.sources, s.seen);
    if s.pc.Recording? then
      var last := |outcomes| - 1;
      outcomes != [] && outcomes[last] == s.pc.outcome && s.counters == Tally(outcomes[..last])
    else s.counters == Tally(outcomes)
  }

  lemma TalliedStep(s: State, a: Action, first: PolicyRules)
    requires Tallied(s, first) && s.rules == AfterReloads(first, s.sources, s.seen) && Next(s, a).Some?
    ensures Tallied(Next(s, a).value, first)
  {
    if a.Reload? {
      OutcomesGrow(first, s.sources, s.seen, a.files);
    } else if a.RecordOutcome? {
      TalliedRecord(s, first);
    } else {
      TalliedKept(s, Next(s, a).value, first);
    }
  }

  /** Recording the pending outcome. */
  lemma {:induction false} TalliedRecord(s: State, first: PolicyRules)
    requires Tallied(s, first) && s.pc.Recording?
    ensures Tallied(s.(pc := LoopTop, counters := Count(s.counters, s.pc.outcome)), first)
  {
  }

  lemma {:induction false} TalliedKept(s: State, t: State, first: PolicyRules)
    requires Tallied(s, first) && (t.pc == s.pc || (!s.pc.Recording? && !t.pc.Recording?))
    requires t.seen == s.seen && t.sources == s.sources && t.counters == s.counters
    ensures Tallied(t, first)
  {
  }

  lemma {:induction false} OutcomesGrow(first: PolicyRules, sources: Sources, seen: seq<Files>, files: Files)
    ensures var outcomes := Outcomes(first, sources, seen + [files]);
            && |outcomes| == |Outcomes(first, sources, seen)| + 1
            && outcomes[..|outcomes| - 1] == Outcomes(first, sources, seen)
            && outcomes[|outcomes| - 1] == Reloaded(AfterReloads(first, sources, seen), sources, files).1
  {
    assert (seen + [files])[..|seen|] == seen;
  }

  /** Where the latch, the task and its late reloads stand. */
  predicate LatchInv(s: State) {
    && (s.latch.shuttingDown <==> !s.signal.NotSent?)
    && (!s.signal.Sent? ==> !s.latch.permit && !s.latch.waiter.Notified?)
    && (s.signal.Sent? && !s.pc.Exited? ==> s.latch.permit || s.latch.waiter.Notified?)
    && (s.latch.waiter.Waiting? ==> !s.latch.permit)
    && (!s.latch.waiter.NoWaiter? <==> s.pc == Select(Registered))
    && (s.pc.Exited? ==> s.latch.shuttingDown)
    && s.lateReloads + (if s.latch.shuttingDown && s.pc.Reloading? then 1 else 0) <= 1
    && (!s.latch.shuttingDown ==> s.lateReloads == 0)
  }

  /** What every reachable state satisfies. */
  predicate Inv(s: State, first: PolicyRules) {
    LatchInv(s) && s.rules == AfterReloads(first, s.sources, s.seen) && Tallied(s, first)
  }

  lemma LatchStep(s: State, a: Action)
    requires LatchInv(s) && Next(s, a).Some?
    ensures LatchInv(Next(s, a).value) && Next(s, a).value.sources == s.sources
  {
  }

  lemma RulesStep(s: State, a: Action, first: PolicyRules)
    requires s.rules == AfterReloads(first, s.sources, s.seen) && Next(s, a).Some?
    ensures var t := Next(s, a).value; t.rules == AfterReloads(first, t.sources, t.seen)
  {
    if a.Reload? {
      assert (s.seen + [a.files])[..|s.seen|] == s.seen;
    }
  }

  lemma InvStep(s: State, a: Action, first: PolicyRules)
    requires Inv(s, first) && Next(s, a).Some?
    ensures Inv(Next(s, a).value, first)
    ensures Next(s, a).value.sources == s.sources
  {
    LatchStep(s, a);
    RulesStep(s, a, first);
    TalliedStep(s, a, first);
  }

  lemma {:induction false} InvRun(s: State, actions: seq<Action>, first: PolicyRules)
    requires Inv(s, first) && Run(s, actions).Some?
    ensures Inv(Run(s, actions).value, first)
    ensures Run(s, actions).value.sources == s.sources
    decreases |actions|
  {
    if actions != [] {
      InvStep(s, actions[0], first);
      InvRun(Next(s, actions[0]).value, actions[1..], first);
    }
  }

  /** How many task steps can still follow once the flag is stored. */
  function Rank(pc: Pc): nat {
    match pc
    case Reloading => 7
    case Recording(_) => 6
    case FirstTick => 6
    case LoopTop => 5
    case Select(Unpolled) => 4
    case Select(FlagWasClear) => 3
    case Select(Registered) => 2
    case CheckFlag => 1
    case Exited => 0
  }

  function TaskSteps(actions: seq<Action>): nat {
    if actions == [] then 0 else (if actions[0].ByTask() then 1 else 0) + TaskSteps(actions[1..])
  }

  /** After any run: the task has exited only on shutdown, and made at most one reload since the flag. */
  lemma ReloadsStopAtShutdown(args: PolicyArgs, startup: Files, actions: seq<Action>)
    requires FromArgs(args, startup).Ok?
    requires Run(Init(FromArgs(args, startup).value.0, FromArgs(args, startup).value.1), actions).Some?
    ensures var (first, sources) := FromArgs(args, startup).value;
            var s := Run(Init(first, sources), actions).value;
            && (s.pc.Exited? ==> s.latch.shuttingDown)
            && s.lateReloads <= 1
            && (!s.latch.shuttingDown ==> s.lateReloads == 0)
  {
    var (first, sources) := FromArgs(args, startup).value;
    InvRun(Init(first, sources), actions, first);
  }

  /** How many times the interval came due. */
  function Ticks(actions: seq<Action>): nat {
    if actions == [] then 0 else (if actions[0].TimePasses? then 1 else 0) + Ticks(actions[1..])
  }

  /** The reloads done, the one on its way and the tick not yet taken. */
  function Reloads(s: State): nat {
    |s.seen| + (if s.tickDue then 1 else 0) + (if s.pc.CheckFlag? || s.pc.Reloading? then 1 else 0)
  }

  lemma ReloadsStep(s: State, a: Action)
    requires Next(s, a).Some?
    ensures Reloads(Next(s, a).value) <= Reloads(s) + if a.TimePasses? then 1 else 0
  {
  }

  lemma {:induction false} ReloadsRun(s: State, actions: seq<Action>)
    requires Run(s, actions).Some?
    ensures Reloads(Run(s, actions).value) <= Reloads(s) + Ticks(actions)
    decreases |actions|
  {
    if actions != [] {
      ReloadsStep(s, actions[0]);
      ReloadsRun(Next(s, actions[0]).value, actions[1..]);
    }
  }

  /** Each reload waits for an interval of its own: the files read at startup are not read again at once. */
  lemma ReloadsWaitForTicks(rules: PolicyRules, sources: Sources, actions: seq<Action>)
    requires Run(Init(rules, sources), actions).Some?
    ensures |Run(Init(rules, sources), actions).value.seen| <= Ticks(actions)
  {
    ReloadsRun(Init(rules, sources), actions);
  }

  /** One round of the loop while nobody shuts down: a tick leads to one reload and one recorded outcome. */
  lemma {:induction false} TickReloads(first: PolicyRules, s: State, files: Files)
    requires Inv(s, first) && s.pc.LoopTop? && !s.latch.shuttingDown
    ensures var (rules, outcome) := Reloaded(s.rules, s.sources, files);
            Run(s, [EnterSelect, TimePasses, PollTick, Recheck, Reload(files), RecordOutcome]) ==
              Some(s.(tickDue := false, rules := rules, counters := Count(s.counters, outcome), seen := s.seen + [files]))
  {
    var actions := [EnterSelect, TimePasses, PollTick, Recheck, Reload(files), RecordOutcome];
    var (rules, outcome) := Reloaded(s.rules, s.sources, files);
    var selecting := s.(pc := Select(Unpolled), tickDue := true);
    var due := s.(pc := Reloading, tickDue := false);
    var done := s.(pc := Recording(outcome), tickDue := false, rules := rules, seen := s.seen + [files]);
    assert actions[2..][2..] == [Reload(files), RecordOutcome];
    assert Run(done, [RecordOutcome]) == Next(done, RecordOutcome);
    assert Run(due, [Reload(files), RecordOutcome]) == Run(done, [RecordOutcome]);
    assert Run(selecting, [PollTick, Recheck, Reload(files), RecordOutcome]) == Run(due, [Reload(files), RecordOutcome]);
  }

  /** No lost wake-up: once `mark_shutting_down` has completed, the task can move until it has exited. */
  lemma NoLostWakeup(rules: PolicyRules, sources: Sources, actions: seq<Action>)
    requires Run(Init(rules, sources), actions).Some?
    ensures var s := Run(Init(rules, sources), actions).value;
            s.signal.Sent? && !s.pc.Exited? ==>
              exists a: Action :: a.ByTask() && Next(s, a).Some? && Rank(Next(s, a).value.pc) < Rank(s.pc)
  {
    InvRun(Init(rules, sources), actions, rules);
    var s := Run(Init(rules, sources), actions).value;
    if s.signal.Sent? && !s.pc.Exited? {
      var a := match s.pc
        case FirstTick => TakeFirstTick
        case LoopTop => EnterSelect
        case Select(Unpolled) => LoadFlag
        case Select(FlagWasClear) => PollLatch
        case Select(Registered) => PollRegistered
        case CheckFlag => Recheck
        case Reloading => Reload(Files(FileRead.Unreadable, FileRead.Unreadable))
        case Recording(_) => RecordOutcome;
      assert Next(s, a).Some? && Rank(Next(s, a).value.pc) < Rank(s.pc);
    }
  }

  lemma RankIsBounded(pc: Pc)
    ensures Rank(pc) <= 7
  {
  }

  lemma RankFalls(s: State, a: Action)
    requires s.latch.shuttingDown && Next(s, a).Some?
    ensures var t := Next(s, a).value;
            t.latch.shuttingDown && Rank(t.pc) <= Rank(s.pc) - if a.ByTask() then 1 else 0
  {
  }

  /** From the flag on, every step the task takes brings it closer to its exit: at most seven remain. */
  lemma {:induction false} ShutdownIsBounded(s: State, actions: seq<Action>)
    requires s.latch.shuttingDown && Run(s, actions).Some?
    ensures TaskSteps(actions) + Rank(Run(s, actions).value.pc) <= Rank(s.pc) <= 7
    ensures Run(s, actions).value.latch.shuttingDown
    decreases |actions|
  {
    RankIsBounded(s.pc);
    if actions != [] {
      RankFalls(s, actions[0]);
      ShutdownIsBounded(Next(s, actions[0]).value, actions[1..]);
    }
  }

  /** While the task runs and after, the served rules are those of the last successful evaluation. */
  lemma ServedRulesAreLastGood(args: PolicyArgs, startup: Files, actions: seq<Action>, key: string)
    requires FromArgs(args, startup).Ok?
    requires Run(Init(FromArgs(args, startup).value.0, FromArgs(args, startup).value.1), actions).Some?
    ensures var (first, sources) := FromArgs(args, startup).value;
            var s := Run(Init(first, sources), actions).value;
            && (s.rules.AllowAll? <==> args.allowAll)
            && (s.rules.Allows(key) <==>
                  args.allowAll || Granted(sources, LastGood(sources, startup, s.seen), key))
  {
    var (first, sources) := FromArgs(args, startup).value;
    InvRun(Init(first, sources), actions, first);
    var s := Run(Init(first, sources), actions).value;
    PolicyOverRuns(args, startup, s.seen);
    DecisionsFollowLastGood(args, startup, s.seen, key);
  }

  /** The three counters say how many of the recorded reloads changed the rules, left them as they were, and failed. */
  lemma CountersTellOutcomes(first: PolicyRules, sources: Sources, actions: seq<Action>)
    requires Run(Init(first, sources), actions).Some?
    ensures var s := Run(Init(first, sources), actions).value;
            var all := Outcomes(first, sources, s.seen);
            var recorded := if s.pc.Recording? && all != [] then all[..|all| - 1] else all;
            && s.counters.success == |Positions(recorded, Changed)|
            && s.counters.same == |Positions(recorded, Same)|
            && s.counters.failure == |Positions(recorded, Failed)|
  {
    InvRun(Init(first, sources), actions, first);
    var s := Run(Init(first, sources), actions).value;
    var all := Outcomes(first, sources, s.seen);
    TallyMeaning(if s.pc.Recording? && all != [] then all[..|all| - 1] else all);
  }
}
