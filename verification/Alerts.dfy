/** Alerts: the retry machine and the controller that emits them.

    An emission is a task of the thread pool. The clock does not move inside a
    step, and the completion of an emission (counters, rescheduling, the wakeup
    it makes, and clearing `running`) is one step. */
module Alerts {

  datatype Config = Config(
    min: nat,
    max: nat,
    start: nat,
    interval: nat,
    restartFailed: nat,
    restartSuccess: nat)

  datatype Activation = Activation(running: bool, succeeded: nat, failed: nat, next: int)

  /** An alert and the emissions of it that the pool has not completed. */
  datatype Alert = Alert(config: Config, activation: Activation, emissions: nat)

  const IDLE := Activation(false, 0, 0, 0)

  predicate IsActive(a: Activation) {
    a.next != 0 || a.running
  }

  predicate Due(a: Activation, now: int) {
    a.next != 0 && a.next <= now
  }

  // ----- transitions of one alert

  function Reset(a: Activation, next: int): Activation {
    a.(succeeded := 0, failed := 0, next := next)
  }

  /** The pass of the controller over one alert. */
  function Woken(a: Alert, now: int): Alert {
    if Due(a.activation, now)
    then a.(activation := a.activation.(running := true, next := 0), emissions := a.emissions + 1)
    else a
  }

  function Activated(a: Alert, now: int): Alert {
    if IsActive(a.activation) then a
    else Woken(a.(activation := Reset(a.activation, now + a.config.start)), now)
  }

  function Deactivated(a: Alert, now: int): Alert {
    if !IsActive(a.activation) then a
    else Woken(a.(activation := Reset(a.activation, 0)), now)
  }

  /** `success` or `failed`, up to the wakeup. */
  function Scored(c: Config, a: Activation, ok: bool, now: int): Activation {
    if ok then
      if a.succeeded + 1 < c.min then a.(succeeded := a.succeeded + 1, next := now + c.interval)
      else if c.restartSuccess > 0 then Reset(a, now + c.restartSuccess)
      else Reset(a, 0)
    else
      if a.failed + 1 < c.max then a.(failed := a.failed + 1, next := now + c.interval)
      else if c.restartFailed > 0 then Reset(a, now + c.restartFailed)
      else Reset(a, 0)
  }

  /** The end of an emission: score, wake up, clear `running`, wake up again. */
  function Completed(a: Alert, ok: bool, now: int): Alert
    requires a.emissions > 0
  {
    var scored := Woken(a.(activation := Scored(a.config, a.activation, ok, now)), now);
    Woken(scored.(activation := scored.activation.(running := false), emissions := scored.emissions - 1), now)
  }

  // ----- runs of one alert

  datatype Op =
    | ActivateOp(now: int)
    | DeactivateOp(now: int)
    | WakeupOp(now: int)
    | CompleteOp(ok: bool, now: int)

  /** Completing needs an emission to complete; the clock is past the epoch. */
  predicate Possible(a: Alert, op: Op) {
    op.now > 0 && (op.CompleteOp? ==> a.emissions > 0)
  }

  function Step(a: Alert, op: Op): Alert
    requires Possible(a, op)
  {
    match op
    case ActivateOp(now) => Activated(a, now)
    case DeactivateOp(now) => Deactivated(a, now)
    case WakeupOp(now) => Woken(a, now)
    case CompleteOp(ok, now) => Completed(a, ok, now)
  }

  /** `b` is where these operations lead from `a`. */
  predicate Leads(a: Alert, ops: seq<Op>, b: Alert)
    decreases |ops|
  {
    if ops == [] then b == a
    else Possible(a, ops[0]) && Leads(Step(a, ops[0]), ops[1..], b)
  }

  /** An alert that has just been constructed. */
  function New(c: Config): Alert {
    Alert(c, IDLE, 0)
  }

  // ----- at most one emission in flight

  /** At most one emission; `running` says whether there is one, and nothing is
      scheduled meanwhile. */
  predicate Protocol(a: Alert) {
    && a.emissions <= 1
    && (a.activation.running <==> a.emissions == 1)
    && (a.activation.running ==> a.activation.next == 0)
  }

  /** A retry is never due at once. */
  predicate Spaced(c: Config) {
    c.interval > 0 || (c.min <= 1 && c.max <= 1)
  }

  lemma {:induction false} StepKeepsProtocol(a: Alert, op: Op)
    requires Protocol(a) && Spaced(a.config) && Possible(a, op)
    ensures Protocol(Step(a, op)) && Step(a, op).config == a.config
  {
  }

  lemma {:induction false} RunKeepsProtocol(a: Alert, ops: seq<Op>, b: Alert)
    requires Protocol(a) && Spaced(a.config) && Leads(a, ops, b)
    ensures Protocol(b)
    decreases |ops|
  {
    if ops != [] {
      StepKeepsProtocol(a, ops[0]);
      RunKeepsProtocol(Step(a, ops[0]), ops[1..], b);
    }
  }

  /** A run that breaks the protocol of an alert whose retries are immediate. */
  function Breaking(c: Config): seq<Op> {
    [ActivateOp(1), WakeupOp(1 + c.start), CompleteOp(c.min > 1, 1 + c.start)]
  }

  lemma {:induction false} BreakingBreaks(c: Config) returns (b: Alert)
    requires !Spaced(c)
    ensures Leads(New(c), Breaking(c), b) && b.emissions == 1 && !b.activation.running
  {
    var ops := Breaking(c);
    var a1 := Step(New(c), ops[0]);
    var a2 := Step(a1, ops[1]);
    b := Step(a2, ops[2]);
    assert a2 == Alert(c, Activation(true, 0, 0, 0), 1);
    assert ops[1..] == [ops[1], ops[2]] && ops[1..][1..] == [ops[2]] && [ops[2]][1..] == [];
    assert Leads(b, [], b);
    assert Leads(a2, [ops[2]], b);
    assert Leads(a1, ops[1..], b);
  }

  ghost predicate AlwaysKeepsProtocol(c: Config) {
    forall ops, b :: Leads(New(c), ops, b) ==> Protocol(b)
  }

  /** The protocol holds in all runs exactly when retries are spaced, or when
      the limits leave nothing to retry. */
  lemma {:induction false} ProtocolHoldsExactly(c: Config)
    ensures AlwaysKeepsProtocol(c) <==> Spaced(c)
  {
    if Spaced(c) {
      forall ops, b | Leads(New(c), ops, b) ensures Protocol(b) {
        RunKeepsProtocol(New(c), ops, b);
      }
    } else {
      var b := BreakingBreaks(c);
      var ops := Breaking(c);
      assert Leads(New(c), ops, b) && !Protocol(b);
    }
  }

  // ----- counters

  /** Between emissions each counter is zero or below its limit. */
  predicate WithinLimits(a: Alert) {
    && (a.activation.succeeded == 0 || a.activation.succeeded < a.config.min)
    && (a.activation.failed == 0 || a.activation.failed < a.config.max)
  }

  lemma {:induction false} CountersStayWithinLimits(a: Alert, ops: seq<Op>, b: Alert)
    requires WithinLimits(a) && Leads(a, ops, b)
    ensures WithinLimits(b)
    decreases |ops|
  {
    if ops != [] {
      CountersStayWithinLimits(Step(a, ops[0]), ops[1..], b);
    }
  }

  // ----- when an alert is emitted

  /** The controller emits an alert exactly when its time is set and has come. */
  lemma {:induction false} WakeupEmits(a: Alert, now: int)
    ensures Woken(a, now) == if a.activation.next != 0 && a.activation.next <= now
      then Alert(a.config, Activation(true, a.activation.succeeded, a.activation.failed, 0), a.emissions + 1)
      else a
  {
  }

  /** Activating an idle alert clears its counters and schedules it after the
      start delay; without one it is emitted at once. An active one stays as it
      is. */
  lemma {:induction false} ActivationSchedules(a: Alert, now: int)
    requires now > 0
    ensures a.activation.next != 0 || a.activation.running ==> Activated(a, now) == a
    ensures a.activation.next == 0 && !a.activation.running ==>
      Activated(a, now) ==
        if a.config.start > 0 then Alert(a.config, Activation(false, 0, 0, now + a.config.start), a.emissions)
        else Alert(a.config, Activation(true, 0, 0, 0), a.emissions + 1)
  {
  }

  /** Activating at a given time schedules for that time, and clears the counters
      of an idle alert only; a time that has come emits at once. */
  lemma {:induction false} ActivationAtSchedules(a: Alert, next: int, now: int)
    requires now > 0
    ensures var idle := a.activation.next == 0 && !a.activation.running;
      var s, f := if idle then 0 else a.activation.succeeded, if idle then 0 else a.activation.failed;
      ActivatedAt(a, next, now) ==
        if next == 0 || next > now then Alert(a.config, Activation(a.activation.running, s, f, next), a.emissions)
        else Alert(a.config, Activation(true, s, f, 0), a.emissions + 1)
  {
  }

  /** Deactivating clears the counters and the schedule of an active alert. */
  lemma {:induction false} DeactivationClears(a: Alert, now: int)
    ensures Deactivated(a, now) ==
      if a.activation.next == 0 && !a.activation.running then a
      else Alert(a.config, Activation(a.activation.running, 0, 0, 0), a.emissions)
  {
  }

  /** A completed emission that leaves its limit unreached is retried after the
      interval, with one more of its kind counted. */
  lemma {:induction false} CompletionRetries(a: Alert, ok: bool, now: int)
    requires a.emissions > 0 && now > 0
    requires if ok then a.activation.succeeded + 1 < a.config.min else a.activation.failed + 1 < a.config.max
    ensures var s := a.activation.succeeded + if ok then 1 else 0;
      var f := a.activation.failed + if ok then 0 else 1;
      Completed(a, ok, now) ==
        if a.config.interval > 0 then Alert(a.config, Activation(false, s, f, now + a.config.interval), a.emissions - 1)
        else Alert(a.config, Activation(false, s, f, 0), a.emissions)
  {
  }

  /** One that reaches its limit clears the counters and restarts the alert after
      the delay for its kind, if there is one. */
  lemma {:induction false} CompletionRestarts(a: Alert, ok: bool, now: int)
    requires a.emissions > 0 && now > 0
    requires if ok then a.activation.succeeded + 1 >= a.config.min else a.activation.failed + 1 >= a.config.max
    ensures var delay := if ok then a.config.restartSuccess else a.config.restartFailed;
      Completed(a, ok, now) ==
        Alert(a.config, Activation(false, 0, 0, if delay > 0 then now + delay else 0), a.emissions - 1)
  {
  }

  /** Whatever happens meanwhile, an activation emits nothing before the start
      delay has passed. */
  lemma {:induction false} NothingBeforeTheDelay(a: Alert, t: int, ops: seq<Op>, b: Alert)
    requires t > 0 && a.activation.next == 0 && !a.activation.running && a.emissions == 0
    requires Leads(Activated(a, t), ops, b)
    requires forall k :: 0 <= k < |ops| ==> t <= ops[k].now < t + a.config.start
    ensures a.config.start > 0 ==> b.emissions == 0 && !b.activation.running
    ensures a.config.start > 0 ==> b.activation.next == 0 || b.activation.next >= t + a.config.start
    ensures a.config.start > 0 && (forall k :: 0 <= k < |ops| ==> !ops[k].DeactivateOp?) ==>
      b == Alert(a.config, Activation(false, 0, 0, t + a.config.start), 0)
  {
    if a.config.start > 0 {
      WaitingWaits(Activated(a, t), t, ops, b);
      if forall k :: 0 <= k < |ops| ==> !ops[k].DeactivateOp? {
        NothingBefore(Activated(a, t), ops, b);
      }
    }
  }

  lemma {:induction false} WaitingWaits(a: Alert, t: int, ops: seq<Op>, b: Alert)
    requires t > 0 && a.emissions == 0 && !a.activation.running && Leads(a, ops, b)
    requires a.activation.next == 0 || a.activation.next >= t + a.config.start
    requires forall k :: 0 <= k < |ops| ==> t <= ops[k].now < t + a.config.start
    ensures b.emissions == 0 && !b.activation.running
    ensures b.activation.next == 0 || b.activation.next >= t + a.config.start
    decreases |ops|
  {
    if ops != [] {
      WaitingWaits(Step(a, ops[0]), t, ops[1..], b);
    }
  }

  /** Nothing happens to a scheduled alert before its time, unless it is
      deactivated: this holds for first emissions, retries and restarts alike. */
  lemma {:induction false} NothingBefore(a: Alert, ops: seq<Op>, b: Alert)
    requires a.emissions == 0 && a.activation.next != 0 && Leads(a, ops, b)
    requires forall k :: 0 <= k < |ops| ==> ops[k].now < a.activation.next && !ops[k].DeactivateOp?
    ensures b == a
    decreases |ops|
  {
    if ops != [] {
      NothingBefore(Step(a, ops[0]), ops[1..], b);
    }
  }

  // ----- how long an activation lasts

  function Max1(n: nat): nat {
    if n > 1 then n else 1
  }

  /** Most completions an activation can take. */
  function Bound(c: Config): nat {
    Max1(c.min) + Max1(c.max) - 1
  }

  /** Completions still possible: none when nothing is scheduled or in flight. */
  function Left(a: Alert): int {
    if a.activation.next == 0 && a.emissions == 0 then 0
    else Bound(a.config) - a.activation.succeeded - a.activation.failed
  }

  predicate OneShot(c: Config) {
    c.restartFailed == 0 && c.restartSuccess == 0
  }

  /** Within one activation: scheduled or in flight, not both, counters in range. */
  predicate InActivation(a: Alert) {
    && WithinLimits(a) && OneShot(a.config)
    && a.emissions + (if a.activation.next != 0 then 1 else 0) <= 1
  }

  /** An alert without an emission does not claim to have one. */
  predicate Honest(a: Alert) {
    a.emissions == 0 ==> !a.activation.running
  }

  predicate Undisturbed(op: Op) {
    op.WakeupOp? || op.CompleteOp?
  }

  function Completions(ops: seq<Op>): nat {
    if ops == [] then 0 else (if ops[0].CompleteOp? then 1 else 0) + Completions(ops[1..])
  }

  lemma {:induction false} StepUsesUp(a: Alert, op: Op)
    requires InActivation(a) && Possible(a, op) && Undisturbed(op)
    ensures InActivation(Step(a, op)) && Step(a, op).config == a.config
    ensures Honest(a) ==> Honest(Step(a, op))
    ensures 0 <= Left(Step(a, op)) <= Left(a) - (if op.CompleteOp? then 1 else 0)
  {
  }

  lemma {:induction false} RunUsesUp(a: Alert, ops: seq<Op>, b: Alert)
    requires InActivation(a) && Leads(a, ops, b)
    requires forall k :: 0 <= k < |ops| ==> Undisturbed(ops[k])
    ensures InActivation(b) && 0 <= Left(b) <= Left(a) - Completions(ops)
    ensures Honest(a) ==> Honest(b)
    decreases |ops|
  {
    if ops != [] {
      StepUsesUp(a, ops[0]);
      RunUsesUp(Step(a, ops[0]), ops[1..], b);
    }
  }

  /** From an activation, with no restart delays and no outside calls, at most
      `Bound` emissions complete, and after that many the alert is inactive. */
  lemma {:induction false} ActivationIsBounded(a: Alert, now: int, ops: seq<Op>, b: Alert)
    requires now > 0 && OneShot(a.config) && !IsActive(a.activation) && a.emissions == 0
    requires Leads(Activated(a, now), ops, b)
    requires forall k :: 0 <= k < |ops| ==> Undisturbed(ops[k])
    ensures Completions(ops) <= Bound(a.config)
    ensures Completions(ops) == Bound(a.config) ==> !IsActive(b.activation) && b.emissions == 0
  {
    RunUsesUp(Activated(a, now), ops, b);
    if Completions(ops) == Bound(a.config) {
      assert Left(b) == 0;
    }
  }

  // ----- which completion is the last

  function Scores(ops: seq<Op>, ok: bool): nat {
    if ops == [] then 0
    else (if ops[0].CompleteOp? && ops[0].ok == ok then 1 else 0) + Scores(ops[1..], ok)
  }

  predicate Pending(a: Alert) {
    a.activation.next != 0 || a.emissions > 0
  }

  lemma {:induction false} NothingPendingStays(a: Alert, ops: seq<Op>, b: Alert)
    requires !Pending(a) && Leads(a, ops, b)
    requires forall k :: 0 <= k < |ops| ==> Undisturbed(ops[k])
    ensures b == a && Scores(ops, true) == Scores(ops, false) == 0
    decreases |ops|
  {
    if ops != [] {
      NothingPendingStays(Step(a, ops[0]), ops[1..], b);
    }
  }

  /** An activation lasts exactly until its successes reach `min` or its
      failures reach `max`: before that the counters are what happened and an
      emission is pending, and the completion that reaches a limit clears
      everything. */
  lemma {:induction false} LastsUntilALimit(a: Alert, ops: seq<Op>, b: Alert)
    requires InActivation(a) && Pending(a) && Leads(a, ops, b)
    requires forall k :: 0 <= k < |ops| ==> Undisturbed(ops[k])
    ensures var s := a.activation.succeeded + Scores(ops, true);
      var f := a.activation.failed + Scores(ops, false);
      if s < Max1(a.config.min) && f < Max1(a.config.max)
      then Pending(b) && b.activation.succeeded == s && b.activation.failed == f
      else
        && !Pending(b) && b.activation.succeeded == 0 && b.activation.failed == 0
        && (Honest(a) ==> !IsActive(b.activation))
    decreases |ops|
  {
    if ops != [] {
      var a1 := Step(a, ops[0]);
      StepUsesUp(a, ops[0]);
      if Pending(a1) {
        LastsUntilALimit(a1, ops[1..], b);
      } else {
        NothingPendingStays(a1, ops[1..], b);
      }
    }
  }

  // ----- deactivating during an emission

  /** Deactivating while an emission is in flight stops the alert only if that
      emission is the last one anyway: the counters were cleared, so the
      completion retries whenever a single success or failure would. */
  lemma {:induction false} DeactivationDuringEmission(a: Alert, t0: int, ok: bool, t1: int)
    requires Protocol(a) && Spaced(a.config) && a.activation.running && t0 > 0 && t1 > 0
    ensures Deactivated(a, t0).emissions > 0
    ensures IsActive(Completed(Deactivated(a, t0), ok, t1).activation) <==>
      if ok then a.config.min > 1 || a.config.restartSuccess > 0
      else a.config.max > 1 || a.config.restartFailed > 0
  {
  }

  // ----- rescheduling during an emission

  /** `activate` with a time of its own. */
  function ActivatedAt(a: Alert, next: int, now: int): Alert {
    Woken(a.(activation := if IsActive(a.activation) then a.activation.(next := next) else Reset(a.activation, next)), now)
  }

  /** It keeps the protocol unless it schedules an alert that is being emitted. */
  lemma {:induction false} ReschedulingKeepsProtocolExactly(a: Alert, next: int, now: int)
    requires Protocol(a) && now > 0
    ensures Protocol(ActivatedAt(a, next, now)) <==> (a.activation.running ==> next == 0)
  {
  }

  // ----- the tail of an emission in two steps

  /** The source reschedules in `success` or `failed` and clears `running` only
      afterwards; here other threads can act in between, at later times. */
  datatype FineAlert = FineAlert(config: Config, activation: Activation, emitting: nat, finishing: nat)

  datatype FineOp =
    | ActivateF(now: int)
    | DeactivateF(now: int)
    | WakeupF(now: int)
    | ScoreF(ok: bool, now: int)
    | FinishF(now: int)

  function WokenF(a: FineAlert, now: int): FineAlert {
    if Due(a.activation, now)
    then a.(activation := a.activation.(running := true, next := 0), emitting := a.emitting + 1)
    else a
  }

  predicate PossibleF(a: FineAlert, op: FineOp) {
    op.now > 0 && (op.ScoreF? ==> a.emitting > 0) && (op.FinishF? ==> a.finishing > 0)
  }

  function StepF(a: FineAlert, op: FineOp): FineAlert
    requires PossibleF(a, op)
  {
    match op
    case ActivateF(now) =>
      if IsActive(a.activation) then a
      else WokenF(a.(activation := Reset(a.activation, now + a.config.start)), now)
    case DeactivateF(now) =>
      if !IsActive(a.activation) then a else WokenF(a.(activation := Reset(a.activation, 0)), now)
    case WakeupF(now) => WokenF(a, now)
    case ScoreF(ok, now) =>
      WokenF(a.(activation := Scored(a.config, a.activation, ok, now),
                emitting := a.emitting - 1, finishing := a.finishing + 1), now)
    case FinishF(now) =>
      WokenF(a.(activation := a.activation.(running := false), finishing := a.finishing - 1), now)
  }

  predicate LeadsF(a: FineAlert, ops: seq<FineOp>, b: FineAlert)
    decreases |ops|
  {
    if ops == [] then b == a
    else PossibleF(a, ops[0]) && LeadsF(StepF(a, ops[0]), ops[1..], b)
  }

  function Coarse(a: FineAlert): Alert {
    Alert(a.config, a.activation, a.emitting + a.finishing)
  }

  /** The two steps together, with the clock standing still, are the one step. */
  lemma {:induction false} TwoStepsMakeOne(a: FineAlert, ok: bool, now: int)
    requires a.emitting > 0 && now > 0
    ensures Coarse(StepF(StepF(a, ScoreF(ok, now)), FinishF(now))) == Completed(Coarse(a), ok, now)
  {
  }

  /** The other operations are the same at both grains. */
  lemma {:induction false} FineStepsAreSteps(a: FineAlert, now: int)
    requires now > 0
    ensures Coarse(StepF(a, ActivateF(now))) == Activated(Coarse(a), now)
    ensures Coarse(StepF(a, DeactivateF(now))) == Deactivated(Coarse(a), now)
    ensures Coarse(StepF(a, WakeupF(now))) == Woken(Coarse(a), now)
  {
  }

  /** At most one task of the alert, `running` says so, and nothing is scheduled
      while it emits. */
  predicate ProtocolF(a: FineAlert) {
    && a.emitting + a.finishing <= 1
    && (a.activation.running <==> a.emitting + a.finishing == 1)
    && (a.emitting == 1 ==> a.activation.next == 0)
  }

  /** Some outcome makes the alert emit again. */
  predicate Reschedules(c: Config) {
    c.min > 1 || c.max > 1 || c.restartSuccess > 0 || c.restartFailed > 0
  }

  /** Nobody looks at the alert so late that a retry falls due before the task
      that scheduled it has cleared `running`. */
  predicate Prompt(a: FineAlert, op: FineOp) {
    a.finishing > 0 && !op.FinishF? ==> !Due(a.activation, op.now)
  }

  predicate LeadsPromptly(a: FineAlert, ops: seq<FineOp>, b: FineAlert)
    decreases |ops|
  {
    if ops == [] then b == a
    else
      && PossibleF(a, ops[0]) && Prompt(a, ops[0])
      && LeadsPromptly(StepF(a, ops[0]), ops[1..], b)
  }

  /** With spaced retries, runs that are prompt keep the protocol. */
  lemma {:induction false} PromptRunsKeepProtocol(a: FineAlert, ops: seq<FineOp>, b: FineAlert)
    requires ProtocolF(a) && Spaced(a.config) && LeadsPromptly(a, ops, b)
    ensures ProtocolF(b)
    decreases |ops|
  {
    if ops != [] {
      PromptRunsKeepProtocol(StepF(a, ops[0]), ops[1..], b);
    }
  }

  ghost predicate AlwaysKeepsProtocolF(c: Config) {
    forall ops, b :: LeadsF(FineAlert(c, IDLE, 0, 0), ops, b) ==> ProtocolF(b)
  }

  lemma {:induction false} WithoutReschedulingKeepsProtocol(a: FineAlert, ops: seq<FineOp>, b: FineAlert)
    requires ProtocolF(a) && !Reschedules(a.config) && LeadsF(a, ops, b)
    requires a.finishing > 0 ==> a.activation.next == 0
    ensures ProtocolF(b)
    decreases |ops|
  {
    if ops != [] {
      WithoutReschedulingKeepsProtocol(StepF(a, ops[0]), ops[1..], b);
    }
  }

  /** A late wakeup between the two steps emits while the first task is still
      finishing. */
  lemma {:induction false} LateWakeupBreaks(c: Config) returns (ops: seq<FineOp>, b: FineAlert)
    requires Reschedules(c)
    ensures LeadsF(FineAlert(c, IDLE, 0, 0), ops, b) && b.emitting == 1 && b.finishing == 1
    ensures forall now | now > 0 :: StepF(b, FinishF(now)).emitting == 1 && !StepF(b, FinishF(now)).activation.running
  {
    var t := 1 + c.start;
    var ok := c.min > 1 || (c.max <= 1 && c.restartSuccess > 0);
    var a0 := FineAlert(c, IDLE, 0, 0);
    var a1 := StepF(a0, ActivateF(1));
    var a2 := StepF(a1, WakeupF(t));
    assert a2 == FineAlert(c, Activation(true, 0, 0, 0), 1, 0);
    var a3 := StepF(a2, ScoreF(ok, t));
    var late := t + c.interval + c.restartSuccess + c.restartFailed;
    b := StepF(a3, WakeupF(late));
    ops := [ActivateF(1), WakeupF(t), ScoreF(ok, t), WakeupF(late)];
    assert LeadsF(b, [], b);
    assert ops[3..] == [WakeupF(late)] && ops[3..][1..] == [];
    assert LeadsF(a3, ops[3..], b);
    assert ops[2..][1..] == ops[3..];
    assert LeadsF(a2, ops[2..], b);
    assert ops[1..][1..] == ops[2..];
    assert LeadsF(a1, ops[1..], b);
  }

  /** Without the assumption that the clock stands still, the protocol holds in
      all runs exactly for alerts whose emissions never schedule another. */
  lemma {:induction false} FineProtocolHoldsExactly(c: Config)
    ensures AlwaysKeepsProtocolF(c) <==> !Reschedules(c)
  {
    var a0 := FineAlert(c, IDLE, 0, 0);
    if Reschedules(c) {
      var ops, b := LateWakeupBreaks(c);
      assert LeadsF(a0, ops, b) && !ProtocolF(b);
    } else {
      forall ops, b | LeadsF(a0, ops, b) ensures ProtocolF(b) {
        WithoutReschedulingKeepsProtocol(a0, ops, b);
      }
    }
  }

  // ----- the controller

  class Controller {
    var alerts: seq<Alert>
    var timer: int

    constructor (alerts: seq<Alert>)
      ensures this.alerts == alerts && timer == 60000
    {
      this.alerts := alerts;
      this.timer := 60000;
    }

    /** Emit what is due and set the timer for the next alert. */
    method Wakeup(now: int)
      modifies this
      ensures |alerts| == |old(alerts)|
      ensures forall k :: 0 <= k < |alerts| ==> alerts[k] == Woken(old(alerts)[k], now)
      ensures 0 < timer <= 600 * 1000
      ensures forall k :: 0 <= k < |alerts| && alerts[k].activation.next != 0 ==>
        timer <= (alerts[k].activation.next - now) * 1000
      ensures timer == 600 * 1000
        || exists k :: 0 <= k < |alerts| && alerts[k].activation.next != 0
             && timer == (alerts[k].activation.next - now) * 1000
    {
      var next := now + 600;
      ghost var was := alerts;
      var k := 0;
      while k < |alerts|
        invariant k <= |alerts| == |was|
        invariant forall m :: 0 <= m < k ==> alerts[m] == Woken(was[m], now)
        invariant forall m :: k <= m < |alerts| ==> alerts[m] == was[m]
        invariant now < next <= now + 600
        invariant forall m :: 0 <= m < k && alerts[m].activation.next != 0 ==> next <= alerts[m].activation.next
        invariant next == now + 600
          || exists m :: 0 <= m < k && alerts[m].activation.next != 0 && next == alerts[m].activation.next
      {
        var a := alerts[k].activation;
        if a.next != 0 {
          if a.next <= now {
            alerts := alerts[k :=
              alerts[k].(activation := a.(running := true, next := 0), emissions := alerts[k].emissions + 1)];
          } else if a.next < next {
            next := a.next;
          }
        }
        k := k + 1;
      }
      timer := (next - now) * 1000;
    }

    method Activate(i: nat, now: int) returns (accepted: bool)
      requires i < |alerts|
      modifies this
      ensures |alerts| == |old(alerts)|
      ensures accepted == !IsActive(old(alerts)[i].activation)
      ensures alerts[i] == Activated(old(alerts)[i], now)
      ensures forall k :: 0 <= k < |alerts| && k != i ==>
        alerts[k] == if accepted then Woken(old(alerts)[k], now) else old(alerts)[k]
    {
      if IsActive(alerts[i].activation) {
        return false;
      }
      alerts := alerts[i := alerts[i].(activation := Reset(alerts[i].activation, now + alerts[i].config.start))];
      Wakeup(now);
      accepted := true;
    }

    method ActivateAt(i: nat, next: int, now: int)
      requires i < |alerts|
      modifies this
      ensures |alerts| == |old(alerts)|
      ensures alerts[i] == ActivatedAt(old(alerts)[i], next, now)
      ensures forall k :: 0 <= k < |alerts| && k != i ==> alerts[k] == Woken(old(alerts)[k], now)
    {
      if !IsActive(alerts[i].activation) {
        alerts := alerts[i := alerts[i].(activation := Reset(alerts[i].activation, next))];
      } else {
        alerts := alerts[i := alerts[i].(activation := alerts[i].activation.(next := next))];
      }
      Wakeup(now);
    }

    method Deactivate(i: nat, now: int) returns (accepted: bool)
      requires i < |alerts|
      modifies this
      ensures |alerts| == |old(alerts)|
      ensures accepted == IsActive(old(alerts)[i].activation)
      ensures alerts[i] == Deactivated(old(alerts)[i], now)
      ensures forall k :: 0 <= k < |alerts| && k != i ==>
        alerts[k] == if accepted then Woken(old(alerts)[k], now) else old(alerts)[k]
    {
      if !IsActive(alerts[i].activation) {
        return false;
      }
      alerts := alerts[i := alerts[i].(activation := Reset(alerts[i].activation, 0))];
      Wakeup(now);
      accepted := true;
    }

    method Success(i: nat, now: int)
      requires i < |alerts|
      modifies this
      ensures |alerts| == |old(alerts)|
      ensures var a := old(alerts)[i];
        alerts[i] == Woken(a.(activation := Scored(a.config, a.activation, true, now)), now)
      ensures forall k :: 0 <= k < |alerts| && k != i ==> alerts[k] == Woken(old(alerts)[k], now)
    {
      var c := alerts[i].config;
      var a := alerts[i].activation.(succeeded := alerts[i].activation.succeeded + 1);
      if a.succeeded < c.min {
        a := a.(next := now + c.interval);
      } else if c.restartSuccess > 0 {
        a := Reset(a, now + c.restartSuccess);
      } else {
        a := Reset(a, 0);
      }
      alerts := alerts[i := alerts[i].(activation := a)];
      Wakeup(now);
    }

    method Failed(i: nat, now: int)
      requires i < |alerts|
      modifies this
      ensures |alerts| == |old(alerts)|
      ensures var a := old(alerts)[i];
        alerts[i] == Woken(a.(activation := Scored(a.config, a.activation, false, now)), now)
      ensures forall k :: 0 <= k < |alerts| && k != i ==> alerts[k] == Woken(old(alerts)[k], now)
    {
      var c := alerts[i].config;
      var a := alerts[i].activation.(failed := alerts[i].activation.failed + 1);
      if a.failed < c.max {
        a := a.(next := now + c.interval);
      } else if c.restartFailed > 0 {
        a := Reset(a, now + c.restartFailed);
      } else {
        a := Reset(a, 0);
      }
      alerts := alerts[i := alerts[i].(activation := a)];
      Wakeup(now);
    }

    /** The tail of an emission task; `ok` is whether `emit` returned zero. */
    method Complete(i: nat, ok: bool, now: int)
      requires i < |alerts| && alerts[i].emissions > 0
      modifies this
      ensures |alerts| == |old(alerts)|
      ensures alerts[i] == Completed(old(alerts)[i], ok, now)
      ensures forall k :: 0 <= k < |alerts| && k != i ==> alerts[k] == Woken(old(alerts)[k], now)
    {
      if ok {
        Success(i, now);
      } else {
        Failed(i, now);
      }
      alerts := alerts[i :=
        alerts[i].(activation := alerts[i].activation.(running := false), emissions := alerts[i].emissions - 1)];
      Wakeup(now);
    }
  }
}
