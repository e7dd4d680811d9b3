/**
 Stopping a process group: SIGTERM, a grace period, SIGKILL and a check that
 the group is really gone, all under a deadline that can cut it short at any
 wait. Time is in milliseconds; waits take exactly as long as they say.
 */
module StopProtocol {
  import opened Integers
  import opened Sequences
  import opened ProcessRegistry
  import ProcessStatus

  const POLL := 100
  const CONFIRM := 10_000
  const STOP_BUFFER := 5_000
  const FORCE_TIMEOUT := 5_000
  const SETTLE := 200

  /** How the process group behaves, and how long each `ps` takes. */
  datatype World = World(alive: nat -> bool, nonZombie: nat -> bool, psTime: nat -> nat, signalOk: nat -> bool)

  /** The group is gone, or consists of zombies only. */
  predicate Ended(w: World, t: nat) {
    !w.alive(t) || !w.nonZombie(t)
  }

  /** A group that has ended does not come back. */
  ghost predicate Monotone(w: World) {
    && (forall t, u :: t <= u && !w.alive(t) ==> !w.alive(u))
    && (forall t, u :: t <= u && !w.nonZombie(t) ==> !w.nonZombie(u))
  }

  datatype Signal = SIGTERM | SIGKILL
  datatype Sent = Sent(signal: Signal, at: nat)
  datatype Outcome = StillWaiting | Ok | Error | TimedOut

  /** The group was polled at every grace poll before `end`, and was alive each time. */
  ghost predicate AliveUntil(w: World, start: nat, end: nat) {
    forall k: nat :: start + POLL * k < end ==> w.alive(start + POLL * k)
  }

  /** The reason for a SIGKILL: the group answered every poll of the grace period. */
  ghost predicate OutlivesGrace(w: World, start: nat, timeout: nat) {
    AliveUntil(w, start, start + timeout) && (w.signalOk(start) || w.alive(start))
  }

  /** One look at the last poll tells. */
  lemma OutlivesGraceExact(w: World, start: nat, timeout: nat)
    requires Monotone(w) && timeout > 0
    ensures OutlivesGrace(w, start, timeout) <==> w.alive(start + POLL * ((timeout - 1) / POLL))
  {
    var last := (timeout - 1) / POLL;
    if w.alive(start + POLL * last) {
      forall k: nat | start + POLL * k < start + timeout ensures w.alive(start + POLL * k) {
        assert k <= last;
      }
      assert w.alive(start);
    }
  }

  /** The group answered at `t`, at most one `ps` and one poll before `now`. */
  predicate AliveAt(w: World, t: nat, now: nat) {
    t <= now <= t + w.psTime(t) + POLL && w.alive(t)
  }

  /** Giving up is never a matter of not having looked. */
  ghost predicate RecentlyAlive(w: World, start: nat, now: nat) {
    exists t: nat :: start <= t && AliveAt(w, t, now)
  }

  lemma RecentSince(w: World, start: nat, later: nat, now: nat)
    requires start <= later && RecentlyAlive(w, later, now)
    ensures RecentlyAlive(w, start, now)
  {
    var t: nat :| later <= t && AliveAt(w, t, now);
    assert start <= t && AliveAt(w, t, now);
  }

  /** When the `ps` of a look at `t` answers. */
  function Answered(w: World, t: nat): nat {
    t + w.psTime(t)
  }

  /** The times of the looks after a SIGKILL: a `ps`, then a pause of 100 ms. */
  function Look(w: World, start: nat, k: nat): nat {
    if k == 0 then start else Answered(w, Look(w, start, k - 1)) + POLL
  }

  /** The first `k` looks found a live member. */
  ghost predicate LooksFailed(w: World, start: nat, k: nat) {
    forall i: nat :: i < k ==> w.alive(Look(w, start, i)) && w.nonZombie(Answered(w, Look(w, start, i)))
  }

  /** How a look at `t` ends the matter: the group has ended, the time is up, or the deadline cuts in. */
  predicate Concluded(w: World, t: nat, giveUp: nat, deadline: nat, outcome: Outcome, now: nat) {
    match outcome
    case Ok =>
      && t < giveUp && t <= now <= deadline
      && (if w.alive(t) then now == Answered(w, t) && !w.nonZombie(now) else now == t)
    case Error => giveUp <= t == now <= deadline
    case TimedOut =>
      && t < giveUp && t <= now == deadline && w.alive(t)
      && (Answered(w, t) > deadline || (w.nonZombie(Answered(w, t)) && Answered(w, t) + POLL > deadline))
    case StillWaiting => false
  }

  /** The whole check after a SIGKILL: the first look that decides. */
  ghost predicate Confirmed(w: World, start: nat, timeout: nat, deadline: nat, outcome: Outcome, now: nat) {
    exists k: nat ::
      LooksFailed(w, start, k) && Concluded(w, Look(w, start, k), start + timeout, deadline, outcome, now)
  }

  lemma LookDecides(w: World, start: nat, k: nat, timeout: nat, deadline: nat, outcome: Outcome, now: nat)
    requires LooksFailed(w, start, k)
    requires Concluded(w, Look(w, start, k), start + timeout, deadline, outcome, now)
    ensures Confirmed(w, start, timeout, deadline, outcome, now)
  {
  }

  lemma LookFails(w: World, start: nat, k: nat)
    requires LooksFailed(w, start, k)
    requires w.alive(Look(w, start, k)) && w.nonZombie(Answered(w, Look(w, start, k)))
    ensures LooksFailed(w, start, k + 1) && Look(w, start, k + 1) == Answered(w, Look(w, start, k)) + POLL
  {
  }

  lemma {:induction false} LooksGoOn(w: World, start: nat, k: nat)
    ensures Look(w, start, k) >= start + POLL * k
    decreases k
  {
    if k > 0 {
      LooksGoOn(w, start, k - 1);
    }
  }

  /** What a caller learns from the outcome. */
  lemma ConfirmedMeans(w: World, start: nat, timeout: nat, deadline: nat, outcome: Outcome, now: nat)
    requires Confirmed(w, start, timeout, deadline, outcome, now)
    ensures outcome != StillWaiting && now <= deadline && (outcome == TimedOut ==> now == deadline)
    ensures outcome == Ok ==> Ended(w, now)
    ensures outcome == Error ==> now >= start + timeout
    ensures outcome == Error && timeout > 0 ==> now >= POLL && w.nonZombie(now - POLL)
    ensures outcome != Ok && timeout > 0 ==> RecentlyAlive(w, start, now)
  {
    var k: nat :| LooksFailed(w, start, k) && Concluded(w, Look(w, start, k), start + timeout, deadline, outcome, now);
    LooksGoOn(w, start, k);
    if outcome == TimedOut {
      assert AliveAt(w, Look(w, start, k), now);
    } else if k > 0 {
      LooksGoOn(w, start, k - 1);
      assert outcome == Error ==> AliveAt(w, Look(w, start, k - 1), now);
    }
  }

  /** The check ends without having seen the group end. */
  ghost predicate Unconfirmed(w: World, start: nat, timeout: nat, deadline: nat, now: nat) {
    Confirmed(w, start, timeout, deadline, TimedOut, now) || Confirmed(w, start, timeout, deadline, Error, now)
  }

  class ManagedProcess {
    const id: Id
    const world: World
    var now: nat
    var status: ProcessStatus.Status
    var exitTime: Option<nat>
    ghost var signals: seq<Sent>

    constructor (id: Id, world: World)
      ensures this.id == id && this.world == world && now == 0
      ensures status == ProcessStatus.Starting && exitTime == None && signals == []
    {
      this.id, this.world, now, status, exitTime, signals := id, world, 0, ProcessStatus.Starting, None, [];
    }

    /** Waits, unless the deadline comes first; on a tie the wait wins. */
    method Await(duration: nat, deadline: nat) returns (done: bool)
      requires now <= deadline
      modifies this`now
      ensures now <= deadline
      ensures done == (old(now) + duration <= deadline)
      ensures now == if done then old(now) + duration else deadline
    {
      done := now + duration <= deadline;
      now := if done then now + duration else deadline;
    }

    method SendSignal(signal: Signal) returns (ok: bool)
      modifies this`signals
      ensures ok == world.signalOk(now)
      ensures signals == old(signals) + [Sent(signal, now)]
    {
      signals := signals + [Sent(signal, now)];
      ok := world.signalOk(now);
    }

    method MarkStopped()
      modifies this`status, this`exitTime
      ensures status == ProcessStatus.Stopped && exitTime == Some(now)
    {
      status := ProcessStatus.Stopped;
      exitTime := Some(now);
    }

    /** The grace period: polls every 100 ms until the group is gone or the time is over. */
    method WaitGracefully(timeout: nat, deadline: nat) returns (outcome: Outcome)
      requires now <= deadline
      modifies this`now, this`status, this`exitTime
      ensures outcome != Error && old(now) <= now <= deadline
      ensures AliveUntil(world, old(now), now)
      ensures outcome == Ok ==>
                && !world.alive(now) && now < old(now) + timeout
                && status == ProcessStatus.Stopped && exitTime == Some(now)
      ensures outcome != Ok ==> status == old(status) && exitTime == old(exitTime)
      ensures outcome == Ok ==> !AliveUntil(world, old(now), old(now) + timeout)
      ensures outcome == StillWaiting ==> now >= old(now) + timeout && now < old(now) + timeout + POLL
      ensures outcome == TimedOut ==> now == deadline && now < old(now) + timeout + POLL
      ensures outcome == TimedOut ==> RecentlyAlive(world, old(now), now)
    {
      var entered := now;
      ghost var polls: nat := 0;
      ghost var status0, exitTime0 := status, exitTime;
      while now - entered < timeout
        invariant now <= deadline && now == entered + POLL * polls
        invariant AliveUntil(world, entered, now)
        invariant now == entered || now < entered + timeout + POLL
        invariant status == status0 && exitTime == exitTime0
        decreases entered + timeout - now
      {
        if !world.alive(now) {
          MarkStopped();
          return Ok;
        }
        ghost var looked := now;
        var slept := Await(POLL, deadline);
        AliveFurther(world, entered, polls, now);
        assert AliveAt(world, looked, now);
        if !slept {
          return TimedOut;
        }
        polls := polls + 1;
      }
      outcome := StillWaiting;
    }

    /** One look and the pause after it; None when the next look is due. */
    method LookOnce(ghost giveUp: nat, deadline: nat) returns (seen: Option<Outcome>)
      requires now <= deadline && now < giveUp
      modifies this`now
      ensures old(now) <= now <= deadline
      ensures seen.Some? ==> seen.value != Error && Concluded(world, old(now), giveUp, deadline, seen.value, now)
      ensures seen.None? ==>
                && world.alive(old(now)) && world.nonZombie(Answered(world, old(now)))
                && now == Answered(world, old(now)) + POLL
    {
      if !world.alive(now) {
        return Some(Ok);
      }
      var inspected := Await(world.psTime(now), deadline);
      if !inspected {
        return Some(TimedOut);
      }
      if !world.nonZombie(now) {
        return Some(Ok);
      }
      var slept := Await(POLL, deadline);
      seen := if slept then None else Some(TimedOut);
    }

    /** The polling loop, until a look decides. */
    method LookUntilDecided(timeout: nat, deadline: nat) returns (outcome: Outcome)
      requires now <= deadline
      modifies this`now
      ensures old(now) <= now <= deadline
      ensures Confirmed(world, old(now), timeout, deadline, outcome, now)
    {
      var entered := now;
      ghost var looks: nat := 0;
      while now - entered < timeout
        invariant entered <= now <= deadline
        invariant now == Look(world, entered, looks) && LooksFailed(world, entered, looks)
        decreases entered + timeout - now
      {
        var seen := LookOnce(entered + timeout, deadline);
        if seen.Some? {
          LookDecides(world, entered, looks, timeout, deadline, seen.value, now);
          return seen.value;
        }
        LookFails(world, entered, looks);
        looks := looks + 1;
      }
      LookDecides(world, entered, looks, timeout, deadline, Error, now);
      outcome := Error;
    }

    /** Looks for up to 10 s whether the group is gone or down to zombies. */
    method ConfirmStoppedWithin(timeout: nat, deadline: nat) returns (outcome: Outcome)
      requires now <= deadline
      modifies this`now
      ensures outcome != StillWaiting && old(now) <= now <= deadline
      ensures outcome == Ok ==> Ended(world, now)
      ensures outcome == Error ==>
                && now >= old(now) + timeout
                && (timeout > 0 ==> now >= POLL && world.nonZombie(now - POLL))
      ensures outcome == TimedOut ==> now == deadline
      ensures outcome != Ok && timeout > 0 ==> RecentlyAlive(world, old(now), now)
      ensures Confirmed(world, old(now), timeout, deadline, outcome, now)
    {
      ghost var entered := now;
      outcome := LookUntilDecided(timeout, deadline);
      ConfirmedMeans(world, entered, timeout, deadline, outcome, now);
    }

    /** The part without mercy: SIGKILL, and the check that it worked. */
    method Kill(deadline: nat) returns (outcome: Outcome)
      requires now <= deadline
      modifies this`now, this`status, this`exitTime, this`signals
      ensures outcome != StillWaiting && old(now) <= now <= deadline
      ensures outcome == Ok ==> Ended(world, now) && status == ProcessStatus.Stopped && exitTime == Some(now)
      ensures outcome != Ok ==> status == old(status) && exitTime == old(exitTime)
      ensures outcome == TimedOut ==> now == deadline
      ensures outcome == Error ==> now >= old(now) + CONFIRM && now >= POLL && world.nonZombie(now - POLL)
      ensures outcome != Ok ==> RecentlyAlive(world, old(now), now)
      ensures signals == old(signals) + [Sent(SIGKILL, old(now))]
      ensures Confirmed(world, old(now), CONFIRM, deadline, outcome, now)
    {
      var _ := SendSignal(SIGKILL);
      outcome := ConfirmStoppedWithin(CONFIRM, deadline);
      if outcome == Ok {
        MarkStopped();
      }
    }

    /** The graceful part: SIGTERM and the grace period. */
    method AskToStop(timeout: nat, deadline: nat) returns (outcome: Outcome)
      requires now <= deadline
      modifies this`now, this`status, this`exitTime, this`signals
      ensures outcome != Error && old(now) <= now <= deadline
      ensures signals == old(signals) + [Sent(SIGTERM, old(now))]
      ensures outcome == Ok ==>
                && !world.alive(now) && status == ProcessStatus.Stopped && exitTime == Some(now)
                && !OutlivesGrace(world, old(now), timeout)
      ensures outcome != Ok ==> status == old(status) && exitTime == old(exitTime)
      ensures outcome == StillWaiting ==>
                old(now) + timeout <= now < old(now) + timeout + POLL && OutlivesGrace(world, old(now), timeout)
      ensures outcome == TimedOut ==>
                now == deadline < old(now) + timeout + POLL && RecentlyAlive(world, old(now), now)
    {
      var delivered := SendSignal(SIGTERM);
      if !delivered && !world.alive(now) {
        MarkStopped();
        return Ok;
      }
      outcome := WaitGracefully(timeout, deadline);
    }

    /** `stop`, dropped at `deadline` if it has not returned by then. */
    method Stop(force: bool, timeout: nat, deadline: nat) returns (outcome: Outcome)
      requires now <= deadline
      modifies this`now, this`status, this`exitTime, this`signals
      ensures outcome != StillWaiting && old(now) <= now <= deadline
      ensures outcome == Ok ==> Ended(world, now) && status == ProcessStatus.Stopped && exitTime == Some(now)
      ensures outcome != Ok ==> status == ProcessStatus.Stopping && exitTime == old(exitTime)
      ensures outcome == TimedOut ==> now == deadline
      ensures outcome == Error ==> now >= old(now) + (if force then 0 else timeout) + CONFIRM
      ensures outcome == Error ==> now >= POLL && world.nonZombie(now - POLL)
      ensures force ==> Confirmed(world, old(now), CONFIRM, deadline, outcome, now)
      ensures force ==> signals == old(signals) + [Sent(SIGKILL, old(now))]
      ensures !force ==> SignalsOfGracefulStop(old(signals), signals, old(now), timeout)
      ensures !force && old(now) + timeout + POLL <= deadline ==>
                && (|signals| == |old(signals)| + 2 <==> OutlivesGrace(world, old(now), timeout))
                && (!OutlivesGrace(world, old(now), timeout) ==> outcome == Ok)
      ensures outcome != Ok ==> RecentlyAlive(world, old(now), now)
    {
      ghost var entered, before := now, signals;
      status := ProcessStatus.Stopping;
      if !force {
        outcome := AskToStop(timeout, deadline);
        if outcome != StillWaiting {
          return;
        }
      }
      ghost var killed := now;
      outcome := Kill(deadline);
      if !force {
        assert KillsAfterGrace(before, signals, entered, timeout, killed);
      }
      if outcome != Ok {
        RecentSince(world, entered, killed, now);
      }
    }

    /**
     A graceful stop sends SIGTERM at once and SIGKILL at most once, only after
     the grace period and only when the group outlived every poll in it.
     */
    ghost predicate SignalsOfGracefulStop(before: seq<Sent>, after: seq<Sent>, start: nat, timeout: nat) {
      || after == before + [Sent(SIGTERM, start)]
      || (exists kill: nat :: KillsAfterGrace(before, after, start, timeout, kill))
    }

    ghost predicate KillsAfterGrace(before: seq<Sent>, after: seq<Sent>, start: nat, timeout: nat, kill: nat) {
      && after == before + [Sent(SIGTERM, start), Sent(SIGKILL, kill)]
      && start + timeout <= kill < start + timeout + POLL
      && AliveUntil(world, start, start + timeout)
    }
  }

  // ----- The manager's part

  datatype StopResult = Success | NotFound | StopError

  /** The `u64` sum of a release build wraps around. */
  function StopTimeout(timeout: u64): nat {
    (timeout + STOP_BUFFER) % U64_RANGE
  }

  /** How long a stop may take altogether. */
  function StopBound(timeout: u64): nat {
    StopTimeout(timeout) + FORCE_TIMEOUT + SETTLE
  }

  /** What the client allows for it: a saturating sum. */
  function StopDeadline(timeout: u64): nat {
    Min(timeout + 15_000, U64_RANGE - 1)
  }

  /** The client waits long enough, except where its own sum saturates and the server's does not wrap. */
  lemma StopWithinClientDeadline(timeout: u64)
    ensures timeout + STOP_BUFFER < U64_RANGE ==> StopBound(timeout) == timeout + 10_200
    ensures StopBound(timeout) <= StopDeadline(timeout)
       <==> !(U64_RANGE - 10_200 <= timeout < U64_RANGE - STOP_BUFFER)
  {
  }

  /** The group has not ended at any time up to `t`. */
  ghost predicate Outlives(w: World, t: nat) {
    forall u: nat :: u <= t ==> !Ended(w, u)
  }

  /** The signals sent since `before`: SIGTERM at once and no earlier SIGKILL, or nothing but one SIGKILL. */
  predicate SignalsFirst(before: seq<Sent>, after: seq<Sent>, force: bool, start: nat) {
    && before < after
    && (if force then after == before + [Sent(SIGKILL, start)] else after[|before|] == Sent(SIGTERM, start))
  }

  /** One stop under its deadline and, where that is missed, one forced stop under another. */
  method StopWithFallback(process: ManagedProcess, force: bool, timeout: u64) returns (outcome: Outcome)
    modifies process`now, process`status, process`exitTime, process`signals
    ensures outcome != StillWaiting
    ensures old(process.now) <= process.now <= old(process.now) + StopTimeout(timeout) + FORCE_TIMEOUT
    ensures outcome == Ok ==>
              && Ended(process.world, process.now)
              && process.status == ProcessStatus.Stopped && process.exitTime == Some(process.now)
    ensures outcome != Ok ==> process.status == ProcessStatus.Stopping && process.exitTime == old(process.exitTime)
    ensures outcome != Ok ==> RecentlyAlive(process.world, old(process.now), process.now)
    ensures outcome != Ok ==>
              if force then process.now >= old(process.now) + Min(StopTimeout(timeout), CONFIRM)
              else process.now == old(process.now) + StopTimeout(timeout) + FORCE_TIMEOUT
    ensures !force && Outlives(process.world, old(process.now) + StopTimeout(timeout)) ==>
              var second := old(process.now) + StopTimeout(timeout);
              Confirmed(process.world, second, CONFIRM, second + FORCE_TIMEOUT, outcome, process.now)
    ensures SignalsFirst(old(process.signals), process.signals, force, old(process.now))
  {
    ghost var entered := process.now;
    outcome := process.Stop(force, timeout, process.now + StopTimeout(timeout));
    if outcome == TimedOut && !force {
      ghost var second := process.now;
      outcome := process.Stop(true, timeout, process.now + FORCE_TIMEOUT);
      if outcome != Ok {
        RecentSince(process.world, entered, second, process.now);
      }
    }
  }

  /**
   Stops what the lookup finds. Only a stop that saw the group end unregisters
   the process and releases its name; any other leaves both maps alone. Either
   way it is over within the bound.
   */
  method StopProcess(
    registry: Registry, isUuid: string -> bool, order: seq<Proxy>, nameOrId: string, project: Option<string>,
    process: ManagedProcess, force: bool, timeout: u64)
    returns (result: StopResult)
    requires WellFormed(registry.processes) && Enumerates(order, registry.processes)
    requires var found := ByNameOrIdWithProject(isUuid, order, registry.processes, nameOrId, project);
             found.Some? ==> found.value.id == process.id
    modifies registry`processes, registry`reservedNames
    modifies process`now, process`status, process`exitTime, process`signals
    ensures WellFormed(registry.processes)
    ensures result == NotFound
       <==> ByNameOrIdWithProject(isUuid, order, old(registry.processes), nameOrId, project).None?
    ensures result != Success ==>
              registry.processes == old(registry.processes) && registry.reservedNames == old(registry.reservedNames)
    ensures result == StopError ==> RecentlyAlive(process.world, old(process.now), process.now)
    ensures result == Success ==>
              && process.id in old(registry.processes)
              && registry.processes == old(registry.processes) - {process.id}
              && registry.reservedNames == old(registry.reservedNames) - {old(registry.processes)[process.id].key}
              && process.exitTime.Some? && Ended(process.world, process.exitTime.value)
              && process.now == process.exitTime.value + SETTLE
    ensures result == StopError ==>
              if force then process.now >= old(process.now) + Min(StopTimeout(timeout), CONFIRM)
              else process.now == old(process.now) + StopTimeout(timeout) + FORCE_TIMEOUT
    ensures result == StopError && !force && Outlives(process.world, old(process.now) + StopTimeout(timeout)) ==>
              var second := old(process.now) + StopTimeout(timeout);
              Unconfirmed(process.world, second, CONFIRM, second + FORCE_TIMEOUT, process.now)
    ensures result != NotFound ==> SignalsFirst(old(process.signals), process.signals, force, old(process.now))
    ensures old(process.now) <= process.now <= old(process.now) + StopBound(timeout)
  {
    var found := ByNameOrIdWithProject(isUuid, order, registry.processes, nameOrId, project);
    if found.None? {
      return NotFound;
    }
    FoundIsRegistered(isUuid, order, registry.processes, nameOrId, project);
    var outcome := StopWithFallback(process, force, timeout);
    if outcome != Ok {
      return StopError;
    }
    Unregister(registry, process);
    result := Success;
  }

  /** After a successful stop: the entry goes, its name is free, and there is a moment to settle. */
  method Unregister(registry: Registry, process: ManagedProcess)
    requires WellFormed(registry.processes) && process.id in registry.processes
    modifies registry`processes, registry`reservedNames, process`now
    ensures WellFormed(registry.processes) && registry.processes == old(registry.processes) - {process.id}
    ensures registry.reservedNames == old(registry.reservedNames) - {old(registry.processes)[process.id].key}
    ensures process.now == old(process.now) + SETTLE
  {
    var _ := registry.RemoveProcess(process.id);
    var _ := process.Await(SETTLE, process.now + SETTLE);
  }

  lemma FoundIsRegistered(
    isUuid: string -> bool, order: seq<Proxy>, m: Processes, nameOrId: string, project: Option<string>)
    requires WellFormed(m) && Enumerates(order, m)
    ensures var found := ByNameOrIdWithProject(isUuid, order, m, nameOrId, project);
            found.Some? ==> found.value.id in m && m[found.value.id] == found.value
  {
    assert forall p :: p in order ==> p.id in m && m[p.id] == p;
  }

  // ----- The bound is reached

  /** A group that survives everything until `end` and is gone from then on, and a `ps` that takes no time. */
  function GoneFrom(end: nat): World {
    World((t: nat) => t < end, (t: nat) => t < end, (t: nat) => 0, (t: nat) => true)
  }

  lemma {:induction false} LookEveryPoll(end: nat, start: nat, k: nat)
    ensures Look(GoneFrom(end), start, k) == start + POLL * k
    decreases k
  {
    if k > 0 {
      LookEveryPoll(end, start, k - 1);
    }
  }

  /** Its end is seen by the look that coincides with the deadline of the forced stop. */
  lemma SeenInTime(start: nat, outcome: Outcome, now: nat)
    ensures Confirmed(GoneFrom(start + FORCE_TIMEOUT), start, CONFIRM, start + FORCE_TIMEOUT, outcome, now) ==>
              outcome == Ok
  {
    var end := start + FORCE_TIMEOUT;
    var w := GoneFrom(end);
    if Confirmed(w, start, CONFIRM, end, outcome, now) {
      var k: nat :| LooksFailed(w, start, k) && Concluded(w, Look(w, start, k), start + CONFIRM, end, outcome, now);
      LookEveryPoll(end, start, k);
    }
  }

  /**
   For every grace period some graceful stop takes exactly the bound. So the
   client gives up on a stop that would still succeed if and only if the grace
   period lies in the one window where its own sum saturates too early.
   */
  method LongestStop(timeout: u64) returns (result: StopResult, elapsed: nat)
    ensures result == Success && elapsed == StopBound(timeout)
    ensures elapsed > StopDeadline(timeout) <==> U64_RANGE - 10_200 <= timeout < U64_RANGE - STOP_BUFFER
  {
    var second := StopTimeout(timeout);
    var proxy := Proxy("id", Key("project", "name"));
    var registry := new Registry();
    registry.AddProcess(proxy);
    var process := new ManagedProcess(proxy.id, GoneFrom(second + FORCE_TIMEOUT));
    assert Find([proxy], (p: Proxy) => p.key.name == "name" && p.key.project == "project") == Some(proxy);
    result := StopProcess(
      registry, (s: string) => false, [proxy], "name", Some("project"), process, false, timeout);
    elapsed := process.now;
    SeenInTime(second, TimedOut, elapsed);
    SeenInTime(second, Error, elapsed);
    StopWithinClientDeadline(timeout);
  }

  lemma AliveFurther(w: World, start: nat, polls: nat, end: nat)
    requires AliveUntil(w, start, start + POLL * polls) && w.alive(start + POLL * polls)
    requires end <= start + POLL * (polls + 1)
    ensures AliveUntil(w, start, end)
  {
    forall k: nat | start + POLL * k < end ensures w.alive(start + POLL * k) {
      assert k <= polls;
    }
  }
}
