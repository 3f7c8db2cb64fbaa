/**
 The agent's event handlers and sync loop as a state machine over their atomic steps
 (internal/agent/nftables/proxier.go). Handlers and the loop interleave freely; only the mutex,
 the one-slot channel and the trackers' own locks order them.
 */
module SyncLoop {
  import opened Wrappers
  import opened Objects
  import opened Trackers

  type Slices = map<NamespacedName, EndpointSlice>

  datatype Config = Config(lib: Library, minSyncPeriod: int)

  /** Where the loop stands. From `Checked` to `Applied` it holds the proxier's lock. */
  datatype LoopPc =
    | Idle
    | Woken
    | Checked
    | HasGateways(g: TrackedGateways)
    | Rendered(g: TrackedGateways, s: Slices)
    | Applying(g: TrackedGateways, s: Slices, start: int)
    | Applied(g: TrackedGateways, s: Slices)
    | Returned(delay: int, failed: bool)

  /** A successful apply. */
  datatype ApplyRecord = ApplyRecord(start: int, end: int)

  /**
   `beforePending` counts handlers that changed a tracker or a flag but have not set `syncPending`;
   `beforeSend` counts those that have, but have not offered their token. `passFailed` says that the
   latest finished pass ended in an apply error, and `lastRead` is what the latest pass to read both trackers saw.
   `begun` is when the latest pass began, `lateBy` how much later the armed retry was scheduled, and `byRetry`
   says that the retry woke the loop last.
   */
  datatype State = State(
    now: int,
    gateways: TrackedGateways, slices: Slices,
    gatewaysSynced: bool, slicesSynced: bool,
    syncPending: bool, lastSync: Option<int>,
    token: bool, retryAt: Option<int>,
    beforePending: nat, beforeSend: nat,
    pc: LoopPc, passFailed: bool, lastRead: Option<(TrackedGateways, Slices)>,
    applied: Option<(TrackedGateways, Slices)>, log: seq<ApplyRecord>, begun: int, lateBy: int, byRetry: bool)
  {
    predicate Locked() {
      pc.Checked? || pc.HasGateways? || pc.Rendered? || pc.Applying? || pc.Applied?
    }

    predicate Synced() {
      gatewaysSynced && slicesSynced
    }

    /** The trackers hold something other than what was last applied. */
    predicate Dirty() {
      applied != Some((gateways, slices))
    }
  }

  function Init(now: int): State {
    State(now, map[], map[], false, false, false, None, false, None, 0, 0, Idle, false, None, None, [], now, 0, false)
  }

  datatype Step =
    | Elapse(dt: nat)
    | OnGateway(previous: Option<Gateway>, current: Option<Gateway>)
    | OnSlice(slice: EndpointSlice, remove: bool)
    | OnGatewaysSynced
    | OnSlicesSynced
    | SetPending
    | Send
    | WakeByTicker
    | WakeByToken
    | WakeByRetry
    | Begin
    | SnapshotGateways
    | SnapshotSlices
    | StartApply
    | ApplySucceeds
    | ApplyFails
    | Finish
    | Schedule

  predicate Enabled(s: State, step: Step) {
    match step
    case Elapse(_) => true
    case OnGateway(_, _) => true
    case OnSlice(_, _) => true
    case OnGatewaysSynced => !s.Locked()
    case OnSlicesSynced => !s.Locked()
    case SetPending => !s.Locked() && s.beforePending > 0
    case Send => s.beforeSend > 0
    case WakeByTicker => s.pc.Idle?
    case WakeByToken => s.pc.Idle? && s.token
    case WakeByRetry => s.pc.Idle? && s.retryAt.Some? && s.retryAt.value <= s.now
    case Begin => s.pc.Woken?
    case SnapshotGateways => s.pc.Checked?
    case SnapshotSlices => s.pc.HasGateways?
    case StartApply => s.pc.Rendered?
    case ApplySucceeds => s.pc.Applying?
    case ApplyFails => s.pc.Applying?
    case Finish => s.pc.Applied?
    case Schedule => s.pc.Returned?
  }

  /** How long `sync` must still wait, or zero. */
  function Remaining(c: Config, s: State): int {
    if c.minSyncPeriod > 0 && s.lastSync.Some? && c.minSyncPeriod - (s.now - s.lastSync.value) > 0
    then c.minSyncPeriod - (s.now - s.lastSync.value) else 0
  }

  /** The checks at the start of `sync`: not synced, rate limited, or go ahead. */
  function Gate(c: Config, s: State): LoopPc {
    if !s.Synced() then Returned(0, false)
    else if Remaining(c, s) > 0 then Returned(if s.syncPending then Remaining(c, s) else 0, false)
    else Checked
  }

  /** What the loop does with the retry timer after a pass: keep it on error, arm it on a delay, else stop it. */
  function RetryAfter(s: State): Option<int>
    requires s.pc.Returned?
  {
    if s.pc.failed then s.retryAt else if s.pc.delay > 0 then Some(s.now + s.pc.delay) else None
  }

  function Next(c: Config, s: State, step: Step): State
    requires Enabled(s, step)
  {
    match step
    case Elapse(dt) => s.(now := s.now + dt)
    case OnGateway(previous, current) =>
      s.(gateways := TrackGateway(c.lib, s.gateways, previous, current), beforePending := s.beforePending + 1)
    case OnSlice(slice, remove) =>
      s.(slices := TrackSlice(s.slices, Some(slice), remove), beforePending := s.beforePending + 1)
    case OnGatewaysSynced => s.(gatewaysSynced := true, beforePending := s.beforePending + 1)
    case OnSlicesSynced => s.(slicesSynced := true, beforePending := s.beforePending + 1)
    case SetPending => s.(syncPending := true, beforePending := s.beforePending - 1, beforeSend := s.beforeSend + 1)
    case Send => s.(token := true, beforeSend := s.beforeSend - 1)
    case WakeByTicker => s.(pc := Woken, byRetry := false)
    case WakeByToken => s.(pc := Woken, token := false, byRetry := false)
    case WakeByRetry => s.(pc := Woken, retryAt := None, byRetry := true)
    case Begin => s.(pc := Gate(c, s), begun := s.now)
    case SnapshotGateways => s.(pc := HasGateways(s.gateways))
    case SnapshotSlices => s.(pc := Rendered(s.pc.g, s.slices), lastRead := Some((s.pc.g, s.slices)))
    case StartApply => s.(pc := Applying(s.pc.g, s.pc.s, s.now))
    case ApplySucceeds =>
      s.(pc := Applied(s.pc.g, s.pc.s), applied := Some((s.pc.g, s.pc.s)), log := s.log + [ApplyRecord(s.pc.start, s.now)])
    case ApplyFails => s.(pc := Returned(0, true))
    case Finish => s.(pc := Returned(0, false), lastSync := Some(s.now), syncPending := false)
    case Schedule =>
      s.(pc := Idle, passFailed := s.pc.failed, retryAt := RetryAfter(s),
         lateBy := if !s.pc.failed && s.pc.delay > 0 then s.now - s.begun else s.lateBy)
  }

  /** The state a run of steps from start-up reaches, if every step was enabled. */
  function Run(c: Config, start: int, steps: seq<Step>): Option<State> {
    if steps == [] then Some(Init(start))
    else match Run(c, start, steps[..|steps| - 1])
      case None => None
      case Some(s) => if Enabled(s, steps[|steps| - 1]) then Some(Next(c, s, steps[|steps| - 1])) else None
  }

  // ---- No lost update -------------------------------------------------------------

  predicate InFlight(s: State) {
    s.beforePending > 0 || s.beforeSend > 0 || s.token
  }

  /** What the loop has already read still matches the trackers, unless a handler is yet to set the flag. */
  predicate SnapshotsFresh(s: State) {
    && (s.pc.HasGateways? && s.gateways != s.pc.g ==> s.beforePending > 0)
    && ((s.pc.Rendered? || s.pc.Applying? || s.pc.Applied?) && (s.gateways, s.slices) != (s.pc.g, s.pc.s)
        ==> s.beforePending > 0)
    && (s.pc.Applied? ==> s.applied == Some((s.pc.g, s.pc.s)))
  }

  /** What a pass has read and not yet tried to apply in vain. */
  predicate ReadKnown(s: State) {
    s.pc.Rendered? || s.pc.Applying? || s.pc.Applied? ==> s.lastRead == Some((s.pc.g, s.pc.s))
  }

  /** After an apply error the trackers still hold what the failed pass read, or a handler has more to say. */
  predicate FailureKnown(s: State) {
    (s.pc.Returned? && s.pc.failed) || (s.pc.Idle? && s.passFailed) ==>
      s.lastRead == Some((s.gateways, s.slices)) || InFlight(s)
  }

  predicate PendingKnown(s: State) {
    && (s.Synced() && s.Dirty() ==> s.syncPending || s.beforePending > 0)
    && (s.Synced() && s.syncPending && s.pc.Idle? && !s.passFailed ==> InFlight(s) || s.retryAt.Some?)
    && (s.Synced() && s.syncPending && s.pc.Returned? && !s.pc.failed && s.pc.delay <= 0 ==> InFlight(s))
  }

  predicate Inv(s: State) {
    SnapshotsFresh(s) && ReadKnown(s) && FailureKnown(s) && PendingKnown(s)
  }

  /** The steps of handlers. */
  predicate OfHandler(step: Step) {
    step.OnGateway? || step.OnSlice? || step.OnGatewaysSynced? || step.OnSlicesSynced? || step.SetPending? || step.Send?
  }

  lemma HandlerStepKeepsInv(c: Config, s: State, step: Step)
    requires Inv(s) && Enabled(s, step) && OfHandler(step)
    ensures Inv(Next(c, s, step))
  {
  }

  lemma FreshStep(c: Config, s: State, step: Step)
    requires SnapshotsFresh(s) && Enabled(s, step) && !OfHandler(step)
    ensures SnapshotsFresh(Next(c, s, step))
  {
  }

  lemma ReadStep(c: Config, s: State, step: Step)
    requires ReadKnown(s) && Enabled(s, step) && !OfHandler(step)
    ensures ReadKnown(Next(c, s, step))
  {
  }

  lemma FailureStep(c: Config, s: State, step: Step)
    requires SnapshotsFresh(s) && ReadKnown(s) && FailureKnown(s) && Enabled(s, step) && !OfHandler(step)
    ensures FailureKnown(Next(c, s, step))
  {
  }

  /** The steps inside a pass. */
  predicate OfPass(step: Step) {
    || step.Begin? || step.SnapshotGateways? || step.SnapshotSlices? || step.StartApply?
    || step.ApplySucceeds? || step.ApplyFails? || step.Finish?
  }

  lemma PassKeepsPending(c: Config, s: State, step: Step)
    requires SnapshotsFresh(s) && PendingKnown(s) && Enabled(s, step) && OfPass(step)
    ensures PendingKnown(Next(c, s, step))
  {
  }

  lemma LoopKeepsPending(c: Config, s: State, step: Step)
    requires PendingKnown(s) && Enabled(s, step) && !OfHandler(step) && !OfPass(step)
    ensures PendingKnown(Next(c, s, step))
  {
  }

  lemma PendingStep(c: Config, s: State, step: Step)
    requires SnapshotsFresh(s) && PendingKnown(s) && Enabled(s, step) && !OfHandler(step)
    ensures PendingKnown(Next(c, s, step))
  {
    if OfPass(step) {
      PassKeepsPending(c, s, step);
    } else {
      LoopKeepsPending(c, s, step);
    }
  }

  lemma StepKeepsInv(c: Config, s: State, step: Step)
    requires Inv(s) && Enabled(s, step)
    ensures Inv(Next(c, s, step))
  {
    if OfHandler(step) {
      HandlerStepKeepsInv(c, s, step);
    } else {
      FreshStep(c, s, step);
      ReadStep(c, s, step);
      FailureStep(c, s, step);
      PendingStep(c, s, step);
    }
  }

  lemma {:induction false} RunKeepsInv(c: Config, start: int, steps: seq<Step>)
    ensures Run(c, start, steps).Some? ==> Inv(Run(c, start, steps).value)
  {
    if steps != [] {
      var before := Run(c, start, steps[..|steps| - 1]);
      RunKeepsInv(c, start, steps[..|steps| - 1]);
      if before.Some? && Enabled(before.value, steps[|steps| - 1]) {
        StepKeepsInv(c, before.value, steps[|steps| - 1]);
      }
    }
  }

  /**
   No update is lost: in every interleaving, once both caches are synced and the trackers differ from what
   was last applied, a handler is part-way through, a token waits, a retry is armed, a pass is in progress,
   or the latest pass ended in an apply error on exactly what the trackers now hold.
   */
  lemma NoLostUpdate(c: Config, start: int, steps: seq<Step>)
    requires Run(c, start, steps).Some?
    ensures var s := Run(c, start, steps).value;
            s.Synced() && s.Dirty() ==>
              InFlight(s) || s.retryAt.Some? || !s.pc.Idle? || (s.passFailed && s.lastRead == Some((s.gateways, s.slices)))
  {
    RunKeepsInv(c, start, steps);
  }

  /** Hence a quiet agent has applied exactly what its trackers hold, unless its last pass failed on just that. */
  lemma QuietMeansApplied(c: Config, start: int, steps: seq<Step>)
    requires Run(c, start, steps).Some?
    requires var s := Run(c, start, steps).value;
             && s.Synced() && !InFlight(s) && s.retryAt.None? && s.pc.Idle?
             && !(s.passFailed && s.lastRead == Some((s.gateways, s.slices)))
    ensures var s := Run(c, start, steps).value; s.applied == Some((s.gateways, s.slices))
  {
    NoLostUpdate(c, start, steps);
  }

  lemma RunExtends(c: Config, start: int, steps: seq<Step>, s: State, step: Step)
    requires Run(c, start, steps) == Some(s) && Enabled(s, step)
    ensures Run(c, start, steps + [step]) == Some(Next(c, s, step))
  {
    assert (steps + [step])[..|steps|] == steps;
  }

  /** Both caches sync, and the loop wakes with nothing else in flight. */
  lemma StartUp(c: Config, start: int) returns (steps: seq<Step>, s: State)
    ensures Run(c, start, steps) == Some(s)
    ensures s == Init(start).(gatewaysSynced := true, slicesSynced := true, syncPending := true, pc := Woken)
  {
    steps, s := [], Init(start);
    RunExtends(c, start, steps, s, OnGatewaysSynced);
    steps, s := steps + [OnGatewaysSynced], Next(c, s, OnGatewaysSynced);
    RunExtends(c, start, steps, s, OnSlicesSynced);
    steps, s := steps + [OnSlicesSynced], Next(c, s, OnSlicesSynced);
    RunExtends(c, start, steps, s, SetPending);
    steps, s := steps + [SetPending], Next(c, s, SetPending);
    RunExtends(c, start, steps, s, SetPending);
    steps, s := steps + [SetPending], Next(c, s, SetPending);
    RunExtends(c, start, steps, s, Send);
    steps, s := steps + [Send], Next(c, s, Send);
    RunExtends(c, start, steps, s, Send);
    steps, s := steps + [Send], Next(c, s, Send);
    RunExtends(c, start, steps, s, WakeByToken);
    steps, s := steps + [WakeByToken], Next(c, s, WakeByToken);
  }

  /** The exception is real: after an apply error nothing but the ticker wakes the loop. */
  lemma FailedApplyOnlyWaitsForTicker(c: Config, start: int) returns (steps: seq<Step>, s: State)
    ensures Run(c, start, steps) == Some(s)
    ensures s.Synced() && s.Dirty() && !InFlight(s) && s.retryAt.None? && s.pc.Idle? && s.passFailed
  {
    steps, s := StartUp(c, start);
    RunExtends(c, start, steps, s, Begin);
    steps, s := steps + [Begin], Next(c, s, Begin);
    RunExtends(c, start, steps, s, SnapshotGateways);
    steps, s := steps + [SnapshotGateways], Next(c, s, SnapshotGateways);
    RunExtends(c, start, steps, s, SnapshotSlices);
    steps, s := steps + [SnapshotSlices], Next(c, s, SnapshotSlices);
    RunExtends(c, start, steps, s, StartApply);
    steps, s := steps + [StartApply], Next(c, s, StartApply);
    RunExtends(c, start, steps, s, ApplyFails);
    steps, s := steps + [ApplyFails], Next(c, s, ApplyFails);
    RunExtends(c, start, steps, s, Schedule);
    steps, s := steps + [Schedule], Next(c, s, Schedule);
  }

  // ---- Retries --------------------------------------------------------------------

  /** The minimum period since the last sync is not over. */
  predicate TooEarly(c: Config, s: State) {
    c.minSyncPeriod > 0 && s.lastSync.Some? && s.now < s.lastSync.value + c.minSyncPeriod
  }

  /** A pass goes ahead exactly if both caches are synced and the period is over; a pending one learns when it will be. */
  lemma GateMeaning(c: Config, s: State)
    requires Enabled(s, Begin)
    ensures var pc := Next(c, s, Begin).pc;
            if !s.Synced() then pc == Returned(0, false)
            else if !TooEarly(c, s) then pc == Checked
            else
              && pc.Returned? && !pc.failed
              && (if s.syncPending then s.now + pc.delay == s.lastSync.value + c.minSyncPeriod else pc.delay == 0)
  {
  }

  /** A pass that is held back returns a delay that ends when the period does. */
  predicate DelayExact(c: Config, s: State) {
    s.pc.Returned? ==>
      && (s.pc.failed ==> s.pc.delay == 0)
      && (s.pc.delay != 0 ==>
            && s.Synced() && s.lastSync.Some? && s.begun <= s.now
            && s.begun + s.pc.delay == s.lastSync.value + c.minSyncPeriod)
  }

  /** An armed retry is due when the period is over, but for the time between a pass and its scheduling. */
  predicate RetryExact(c: Config, s: State) {
    s.retryAt.Some? && !(s.pc.Returned? && !s.pc.failed) ==>
      && s.Synced() && s.lastSync.Some? && 0 <= s.lateBy
      && s.retryAt.value == s.lastSync.value + c.minSyncPeriod + s.lateBy
  }

  /** A pass woken by the retry will not be held back. */
  predicate RetryIsDue(c: Config, s: State) {
    s.pc.Woken? && s.byRetry ==> s.Synced() && !TooEarly(c, s)
  }

  predicate RetryInv(c: Config, s: State) {
    DelayExact(c, s) && RetryExact(c, s) && RetryIsDue(c, s)
  }

  lemma HandlerStepKeepsRetry(c: Config, s: State, step: Step)
    requires RetryInv(c, s) && Enabled(s, step) && OfHandler(step)
    ensures RetryInv(c, Next(c, s, step))
  {
  }

  lemma DelayStep(c: Config, s: State, step: Step)
    requires DelayExact(c, s) && Enabled(s, step) && !OfHandler(step)
    ensures DelayExact(c, Next(c, s, step))
  {
  }

  lemma RetryStep(c: Config, s: State, step: Step)
    requires DelayExact(c, s) && RetryExact(c, s) && Enabled(s, step) && !OfHandler(step)
    ensures RetryExact(c, Next(c, s, step))
  {
  }

  lemma DueStep(c: Config, s: State, step: Step)
    requires RetryExact(c, s) && RetryIsDue(c, s) && Enabled(s, step) && !OfHandler(step)
    ensures RetryIsDue(c, Next(c, s, step))
  {
  }

  lemma StepKeepsRetry(c: Config, s: State, step: Step)
    requires RetryInv(c, s) && Enabled(s, step)
    ensures RetryInv(c, Next(c, s, step))
  {
    if OfHandler(step) {
      HandlerStepKeepsRetry(c, s, step);
    } else {
      DelayStep(c, s, step);
      RetryStep(c, s, step);
      DueStep(c, s, step);
    }
  }

  lemma {:induction false} RunKeepsRetry(c: Config, start: int, steps: seq<Step>)
    ensures Run(c, start, steps).Some? ==> RetryInv(c, Run(c, start, steps).value)
  {
    if steps != [] {
      var before := Run(c, start, steps[..|steps| - 1]);
      RunKeepsRetry(c, start, steps[..|steps| - 1]);
      if before.Some? && Enabled(before.value, steps[|steps| - 1]) {
        StepKeepsRetry(c, before.value, steps[|steps| - 1]);
      }
    }
  }

  /**
   In every interleaving the delay of a pass that is held back ends exactly when the minimum period since the last
   sync does, the retry it arms is later only by the time it took to schedule it, and the pass that the retry
   wakes is not held back again.
   */
  lemma RetryOnTime(c: Config, start: int, steps: seq<Step>)
    requires Run(c, start, steps).Some?
    ensures var s := Run(c, start, steps).value;
            && (s.pc.Returned? && s.pc.delay != 0 ==>
                  s.lastSync.Some? && s.begun + s.pc.delay == s.lastSync.value + c.minSyncPeriod)
            && (s.pc.Idle? && s.retryAt.Some? ==>
                  s.lastSync.Some? && s.lateBy >= 0 && s.retryAt.value == s.lastSync.value + c.minSyncPeriod + s.lateBy)
            && (s.pc.Woken? && s.byRetry ==> Next(c, s, Begin).pc == Checked)
  {
    RunKeepsRetry(c, start, steps);
  }

  lemma HandlerKeepsRetry(c: Config, s: State, step: Step)
    requires Enabled(s, step) && OfHandler(step)
    ensures Next(c, s, step).retryAt == s.retryAt
  {
  }

  /** An armed retry stays until it fires or a pass that did not fail reschedules it. */
  lemma RetryStays(c: Config, s: State, step: Step)
    requires Enabled(s, step) && s.retryAt.Some?
    ensures Next(c, s, step).retryAt == s.retryAt || step.WakeByRetry? || (step.Schedule? && !s.pc.failed)
  {
    if OfHandler(step) {
      HandlerKeepsRetry(c, s, step);
    }
  }

  // ---- The rate limit -------------------------------------------------------------

  function LastEnd(log: seq<ApplyRecord>): Option<int> {
    if log == [] then None else Some(log[|log| - 1].end)
  }

  /** The last successful apply ended at least the minimum period before `t`. */
  predicate Clear(c: Config, log: seq<ApplyRecord>, t: int) {
    LastEnd(log).Some? ==> LastEnd(log).value + c.minSyncPeriod <= t
  }

  /** Each successful apply starts at least the minimum period after the one before it ended. */
  predicate Spaced(c: Config, log: seq<ApplyRecord>) {
    log != [] ==> Spaced(c, log[..|log| - 1]) && Clear(c, log[..|log| - 1], log[|log| - 1].start)
  }

  lemma SpacedGrows(c: Config, log: seq<ApplyRecord>, r: ApplyRecord)
    requires Spaced(c, log) && Clear(c, log, r.start)
    ensures Spaced(c, log + [r]) && LastEnd(log + [r]) == Some(r.end)
  {
    assert (log + [r])[..|log|] == log;
  }

  /** Only these five fields matter to the rate limit. */
  predicate RateFields(c: Config, now: int, lastSync: Option<int>, pc: LoopPc, log: seq<ApplyRecord>) {
    && Spaced(c, log)
    && (LastEnd(log).Some? ==> LastEnd(log).value <= now)
    && (LastEnd(log).Some? && !pc.Applied? ==> lastSync.Some? && LastEnd(log).value <= lastSync.value)
    && (pc.Checked? || pc.HasGateways? || pc.Rendered? ==> Clear(c, log, now))
    && (pc.Applying? ==> Clear(c, log, pc.start))
  }

  predicate RateInv(c: Config, s: State) {
    RateFields(c, s.now, s.lastSync, s.pc, s.log)
  }

  lemma StepKeepsRate(c: Config, s: State, step: Step)
    requires c.minSyncPeriod > 0 && RateInv(c, s) && Enabled(s, step)
    ensures RateInv(c, Next(c, s, step))
  {
    if step.ApplySucceeds? {
      SpacedGrows(c, s.log, ApplyRecord(s.pc.start, s.now));
    }
  }

  /** Every apply, successful or not, starts at least `minSyncPeriod` after the previous successful one ended. */
  lemma {:induction false} RateLimit(c: Config, start: int, steps: seq<Step>)
    requires c.minSyncPeriod > 0
    ensures Run(c, start, steps).Some? ==>
            var s := Run(c, start, steps).value;
            Spaced(c, s.log) && RateInv(c, s) && (s.pc.Applying? ==> Clear(c, s.log, s.pc.start))
  {
    if steps != [] {
      var before := Run(c, start, steps[..|steps| - 1]);
      RateLimit(c, start, steps[..|steps| - 1]);
      if before.Some? && Enabled(before.value, steps[|steps| - 1]) {
        StepKeepsRate(c, before.value, steps[|steps| - 1]);
      }
    }
  }
}
