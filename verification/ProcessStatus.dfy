/**
 The status of a process: one atomic byte that the exit monitor, two kinds of
 synchronisation and any number of stops write without agreeing on an order.
 */
module ProcessStatus {
  import opened Integers
  import opened Sequences

  datatype Status = Starting | Running | Stopping | Stopped | Failed

  function ToByte(status: Status): u8 {
    match status
    case Starting => 1
    case Running => 2
    case Stopping => 3
    case Stopped => 4
    case Failed => 5
  }

  /** Any other byte reads as Stopped. */
  function FromByte(b: u8): (status: Status)
    ensures ToByte(status) == if 1 <= b <= 5 then b else 4
  {
    if b == 1 then Starting else if b == 2 then Running else if b == 3 then Stopping
    else if b == 5 then Failed else Stopped
  }

  predicate Active(status: Status) {
    status == Starting || status == Running
  }

  /** The monitor's verdict on an exit; None when a signal ended the process or waiting failed. */
  function MonitorVerdict(exitCode: Option<int>): Status {
    if exitCode == Some(0) then Stopped else Failed
  }

  function SyncVerdict(code: int): (status: Status)
    ensures status == MonitorVerdict(Some(code))
  {
    if code == 0 then Stopped else Failed
  }

  /** What `kill -0` reports. */
  datatype Answer = Alive | Dead | Unknown

  // ----- One synchronisation, undisturbed

  /** A status that is not active stays; otherwise the exit code decides, and without one `kill -0` does. */
  function Synced(status: Status, exitCode: Option<int>, answer: Answer): Status {
    if !Active(status) then status
    else if exitCode.Some? then MonitorVerdict(exitCode)
    else match answer case Alive => Running case Dead => Failed case Unknown => status
  }

  class ProxyInfo {
    var status: u8
    var exitCode: Option<int>

    constructor ()
      ensures GetStatus() == Starting && exitCode == None
    {
      status, exitCode := ToByte(Starting), None;
    }

    function GetStatus(): Status
      reads this
    {
      FromByte(status)
    }

    method SetStatus(s: Status)
      modifies this`status
      ensures GetStatus() == s
    {
      status := ToByte(s);
    }

    /** Both copies of the synchronisation; `answer` is what `kill -0` would say. */
    method SyncProcessStatus(answer: Answer)
      modifies this`status
      ensures GetStatus() == Synced(old(GetStatus()), exitCode, answer)
      ensures exitCode.Some? || answer == Dead ==> !Active(GetStatus())
    {
      if exitCode.Some? {
        var current := GetStatus();
        if current == Running || current == Starting {
          SetStatus(if exitCode.value == 0 then Stopped else Failed);
        }
        return;
      }
      match answer {
        case Dead =>
          var current := GetStatus();
          if current == Starting {
            SetStatus(Failed);
          } else if current == Running {
            SetStatus(Failed);
          }
        case Alive =>
          if GetStatus() == Starting {
            SetStatus(Running);
          }
        case Unknown =>
      }
    }
  }

  // ----- All of them at once

  type Tid = nat

  datatype Monitor =
    | Waiting
    | CodeWritten(code: Option<int>)     // the exit code is stored, the exit time is not
    | TimeWritten(code: Option<int>)
    | Done(code: Option<int>)

  datatype Sync =
    | Idle
    | Filtering                 // the periodic one looks only at active processes
    | Begun
    | SawCode(code: int)
    | WriteVerdict(code: int)   // read an active status
    | NoCode
    | SawAlive
    | SawDead
    | WriteFailed               // read an active status
    | WriteRunning              // read Starting

  datatype State = State(
    status: Status,
    exitCode: Option<int>,
    monitor: Monitor,
    syncs: map<Tid, Sync>,
    stops: map<Tid, bool>)      // true while a stop is under way

  datatype Action =
    | ProcessExits(code: Option<int>)
    | StoreExitTime
    | MonitorWrites
    | WaitFails
    | BeginSync(t: Tid)
    | BeginPeriodic(t: Tid)
    | SyncStep(t: Tid)
    | Kill(t: Tid, answer: Answer)
    | BeginStop(t: Tid)
    | StopSucceeds(t: Tid)
    | StopFails(t: Tid)

  function SetSync(s: State, t: Tid, pc: Sync): State {
    s.(syncs := s.syncs[t := pc])
  }

  /** The next read or write of a synchronisation. */
  function ExecSync(s: State, t: Tid): Option<State>
    requires t in s.syncs
  {
    match s.syncs[t]
    case Filtering => Some(SetSync(s, t, if Active(s.status) then Begun else Idle))
    case Begun => Some(SetSync(s, t, if s.exitCode.Some? then SawCode(s.exitCode.value) else NoCode))
    case SawCode(code) => Some(SetSync(s, t, if Active(s.status) then WriteVerdict(code) else Idle))
    case WriteVerdict(code) => Some(SetSync(s, t, Idle).(status := SyncVerdict(code)))
    case SawAlive => Some(SetSync(s, t, if s.status == Starting then WriteRunning else Idle))
    case WriteRunning => Some(SetSync(s, t, Idle).(status := Running))
    case SawDead => Some(SetSync(s, t, if Active(s.status) then WriteFailed else Idle))
    case WriteFailed => Some(SetSync(s, t, Idle).(status := Failed))
    case _ => None
  }

  function Exec(s: State, a: Action): Option<State> {
    match a
    case ProcessExits(code) =>
      if s.monitor == Waiting then Some(s.(exitCode := code, monitor := CodeWritten(code))) else None
    case StoreExitTime =>
      if s.monitor.CodeWritten? then Some(s.(monitor := TimeWritten(s.monitor.code))) else None
    case MonitorWrites =>
      if s.monitor.TimeWritten?
      then Some(s.(status := MonitorVerdict(s.monitor.code), monitor := Done(s.monitor.code))) else None
    case WaitFails =>
      if s.monitor == Waiting then Some(s.(status := Failed, monitor := Done(None))) else None
    case BeginSync(t) =>
      if t in s.syncs && s.syncs[t] == Idle then Some(SetSync(s, t, Begun)) else None
    case BeginPeriodic(t) =>
      if t in s.syncs && s.syncs[t] == Idle then Some(SetSync(s, t, Filtering)) else None
    case SyncStep(t) =>
      if t in s.syncs then ExecSync(s, t) else None
    case Kill(t, answer) =>
      if t in s.syncs && s.syncs[t] == NoCode
      then Some(SetSync(s, t, match answer case Alive => SawAlive case Dead => SawDead case Unknown => Idle)) else None
    case BeginStop(t) =>
      if t in s.stops && !s.stops[t] then Some(s.(status := Stopping, stops := s.stops[t := true])) else None
    case StopSucceeds(t) =>
      if t in s.stops && s.stops[t] then Some(s.(status := Stopped, stops := s.stops[t := false])) else None
    case StopFails(t) =>
      if t in s.stops && s.stops[t] then Some(s.(stops := s.stops[t := false])) else None
  }

  /** What thread `t` does next when nobody else moves. */
  function Alone(s: State, t: Tid, answer: Answer): State
    requires t in s.syncs
  {
    var a := if s.syncs[t] == NoCode then Kill(t, answer) else SyncStep(t);
    var next := Exec(s, a);
    if next.Some? then next.value else s
  }

  /** Undisturbed, the atomic steps of a synchronisation have the effect of the whole. */
  lemma UndisturbedSync(s: State, t: Tid, answer: Answer)
    requires t in s.syncs && s.syncs[t] == Begun
    ensures var s1 := Alone(s, t, answer);
            var s2 := Alone(s1, t, answer);
            var s3 := Alone(s2, t, answer);
            var s4 := Alone(s3, t, answer);
            s4.syncs[t] == Idle && s4.status == Synced(s.status, s.exitCode, answer)
  {
    var s1 := Alone(s, t, answer);
    var s2 := Alone(s1, t, answer);
    if s.exitCode.Some? {
      assert s2.syncs[t] == if Active(s.status) then WriteVerdict(s.exitCode.value) else Idle;
    } else {
      assert s1.syncs[t] == NoCode;
    }
  }

  predicate Step(s: State, s': State, a: Action) {
    Exec(s, a) == Some(s')
  }

  /** A step; with `dead`, one in which `kill -0` no longer finds the process; with `calm`, no new stop. */
  predicate Allowed(a: Action, dead: bool, calm: bool) {
    && (dead && a.Kill? ==> a.answer == Dead)
    && (calm ==> !a.BeginStop?)
  }

  ghost predicate Next(s: State, s': State, dead: bool, calm: bool) {
    exists a :: Step(s, s', a) && Allowed(a, dead, calm)
  }

  ghost predicate IsPath(trace: seq<State>, dead: bool, calm: bool) {
    && trace != []
    && forall i, j :: 0 <= i && j == i + 1 < |trace| ==> Next(trace[i], trace[j], dead, calm)
  }

  ghost predicate Init(s: State) {
    && s.status == Starting && s.exitCode == None && s.monitor == Waiting
    && (forall t :: t in s.syncs ==> s.syncs[t] == Idle)
    && (forall t :: t in s.stops ==> !s.stops[t])
  }

  ghost predicate Inv(s: State) {
    && (s.monitor.Done? ==> s.status != Starting)
    && s.exitCode == (if s.monitor == Waiting then None else s.monitor.code)
    && (forall t :: t in s.syncs && s.syncs[t].SawCode? ==> s.exitCode == Some(s.syncs[t].code))
    && (forall t :: t in s.syncs && s.syncs[t].WriteVerdict? ==> s.exitCode == Some(s.syncs[t].code))
  }

  lemma StepKeepsInv(s: State, s': State, a: Action)
    requires Inv(s) && Step(s, s', a)
    ensures Inv(s')
  {
    match a {
      case SyncStep(t) => SyncKeepsInv(s, s', t);
      case _ =>
    }
  }

  lemma SyncKeepsInv(s: State, s': State, t: Tid)
    requires Inv(s) && Step(s, s', SyncStep(t))
    ensures Inv(s')
  {
  }

  /** What each party writes. */
  lemma WhoWritesWhat(s: State, s': State, a: Action)
    requires Inv(s) && Step(s, s', a)
    ensures a == MonitorWrites ==> s'.status == if s.exitCode == Some(0) then Stopped else Failed
    ensures a == WaitFails ==> s'.status == Failed
    ensures a.BeginStop? ==> s'.status == Stopping
    ensures a.StopSucceeds? ==> s'.status == Stopped
    ensures a.SyncStep? && s'.status != s.status ==>
              || s'.status == Running
              || s'.status == Failed
              || (s'.status == Stopped && s.exitCode == Some(0))
    ensures s'.status != s.status ==> a in {MonitorWrites, WaitFails} || a.BeginStop? || a.StopSucceeds? || a.SyncStep?
  {
  }

  /** Nobody is ever stuck: monitor, synchronisations and stops can go on whatever the others have done. */
  lemma EverybodyCanGoOn(s: State, t: Tid, code: Option<int>, answer: Answer)
    ensures s.monitor == Waiting ==> Exec(s, ProcessExits(code)).Some? && Exec(s, WaitFails).Some?
    ensures s.monitor.CodeWritten? ==> Exec(s, StoreExitTime).Some?
    ensures s.monitor.TimeWritten? ==> Exec(s, MonitorWrites).Some?
    ensures t in s.syncs && s.syncs[t] == Idle ==> Exec(s, BeginSync(t)).Some? && Exec(s, BeginPeriodic(t)).Some?
    ensures t in s.syncs && s.syncs[t] == NoCode ==> Exec(s, Kill(t, answer)).Some?
    ensures t in s.syncs && s.syncs[t] !in {Idle, NoCode} ==> Exec(s, SyncStep(t)).Some?
    ensures t in s.stops && !s.stops[t] ==> Exec(s, BeginStop(t)).Some?
    ensures t in s.stops && s.stops[t] ==>
              && Exec(s, StopSucceeds(t)) == Some(s.(status := Stopped, stops := s.stops[t := false]))
              && Exec(s, StopFails(t)) == Some(s.(stops := s.stops[t := false]))
  {
  }

  /** A periodic synchronisation leaves an inactive process alone and begins on an active one. */
  lemma PeriodicFilters(s: State, t: Tid)
    requires t in s.syncs && s.syncs[t] == Idle
    ensures var s1 := Exec(s, BeginPeriodic(t));
            s1.Some? && Exec(s1.value, SyncStep(t)) == if Active(s.status) then Exec(s, BeginSync(t)) else Some(s)
  {
    var s1 := Exec(s, BeginPeriodic(t)).value;
    assert s1.syncs[t := Idle] == s.syncs && s1.syncs[t := Begun] == s.syncs[t := Begun];
  }

  /** Every interleaving: no step writes Starting, and a sync acts only on the monitor's own exit code. */
  lemma {:induction false} RunKeepsInv(trace: seq<State>, dead: bool, calm: bool, i: nat)
    requires IsPath(trace, dead, calm) && Init(trace[0]) && i < |trace|
    ensures Inv(trace[i])
    decreases i
  {
    if i > 0 {
      RunKeepsInv(trace, dead, calm, i - 1);
      assert Next(trace[i - 1], trace[i], dead, calm);
      var a :| Step(trace[i - 1], trace[i], a);
      StepKeepsInv(trace[i - 1], trace[i], a);
    }
  }

  lemma StartingNeverWritten(s: State, s': State, a: Action)
    requires Step(s, s', a)
    ensures s'.status == Starting ==> s.status == Starting
  {
  }

  lemma NextLeavesStarting(s: State, s': State, dead: bool, calm: bool)
    requires Next(s, s', dead, calm)
    ensures s'.status == Starting ==> s.status == Starting
  {
    var a :| Step(s, s', a);
    StartingNeverWritten(s, s', a);
  }

  /** So once the status has left Starting, it never comes back to it. */
  lemma StartingLeftForGood(trace: seq<State>, dead: bool, calm: bool, i: nat, k: nat)
    requires IsPath(trace, dead, calm) && i <= k < |trace| && trace[i].status != Starting
    ensures trace[k].status != Starting
  {
    var holds := seq(|trace|, m requires 0 <= m < |trace| => trace[m].status != Starting);
    forall m, n | 0 <= m && n == m + 1 < |trace| && holds[m] ensures holds[n] {
      NextLeavesStarting(trace[m], trace[n], dead, calm);
    }
    KeptAlong(holds, i, k);
  }

  // ----- Stabilisation

  /** The monitor is done, and no sync is about to write Running. */
  ghost predicate Settled(s: State) {
    Inv(s) && s.monitor.Done? && forall t :: t in s.syncs ==> s.syncs[t] != WriteRunning
  }

  /** A sync on its way to correct an active status. */
  predicate StillCorrects(pc: Sync) {
    !pc.Idle? && !pc.SawAlive? && !pc.WriteRunning?
  }

  /** A pass that began in a settled state: when it has nothing left to do, the status is not active. */
  ghost predicate PassAtWork(s: State, t: Tid) {
    && Settled(s) && t in s.syncs
    && (Active(s.status) ==> StillCorrects(s.syncs[t]))
    && (s.exitCode.Some? && Active(s.status) ==> s.syncs[t] != NoCode)
  }

  lemma SettledStays(s: State, s': State, a: Action)
    requires Settled(s) && Step(s, s', a)
    ensures Settled(s') && s'.exitCode == s.exitCode
    ensures !Active(s.status) ==> !Active(s'.status)
  {
    StepKeepsInv(s, s', a);
  }

  lemma PassGoesOn(s: State, s': State, a: Action, dead: bool, t: Tid)
    requires PassAtWork(s, t) && Step(s, s', a) && Allowed(a, dead, false)
    requires s.exitCode.Some? || dead
    ensures PassAtWork(s', t)
  {
    SettledStays(s, s', a);
    match a {
      case SyncStep(u) => SyncPassGoesOn(s, s', u, dead, t);
      case _ =>
    }
  }

  lemma SyncPassGoesOn(s: State, s': State, u: Tid, dead: bool, t: Tid)
    requires PassAtWork(s, t) && Step(s, s', SyncStep(u))
    requires s.exitCode.Some? || dead
    ensures PassAtWork(s', t)
  {
    SettledStays(s, s', SyncStep(u));
  }

  lemma NextSettled(s: State, s': State, dead: bool, calm: bool)
    requires Settled(s) && Next(s, s', dead, calm)
    ensures Settled(s') && s'.exitCode == s.exitCode
    ensures !Active(s.status) ==> !Active(s'.status)
  {
    var a :| Step(s, s', a);
    SettledStays(s, s', a);
  }

  lemma NextPass(s: State, s': State, dead: bool, t: Tid)
    requires PassAtWork(s, t) && (s.exitCode.Some? || dead) && Next(s, s', dead, false)
    ensures PassAtWork(s', t) && s'.exitCode == s.exitCode
  {
    var a :| Step(s, s', a) && Allowed(a, dead, false);
    SettledStays(s, s', a);
    PassGoesOn(s, s', a, dead, t);
  }

  /** Once settled, a status that is not active stays so for ever. */
  lemma {:induction false} InactiveForEver(trace: seq<State>, dead: bool, calm: bool, i: nat, k: nat)
    requires IsPath(trace, dead, calm) && i <= k < |trace|
    requires Settled(trace[i]) && !Active(trace[i].status)
    ensures Settled(trace[k]) && !Active(trace[k].status)
    decreases k
  {
    if i < k {
      InactiveForEver(trace, dead, calm, i, k - 1);
      NextSettled(trace[k - 1], trace[k], dead, calm);
    }
  }

  lemma PassAtWorkAlong(trace: seq<State>, dead: bool, t: Tid, i: nat, j: nat)
    requires IsPath(trace, dead, false) && i <= j < |trace|
    requires PassAtWork(trace[i], t) && (trace[i].exitCode.Some? || dead)
    ensures PassAtWork(trace[j], t)
  {
    var code := trace[i].exitCode;
    var holds := seq(|trace|, k requires 0 <= k < |trace| => PassAtWork(trace[k], t) && trace[k].exitCode == code);
    forall k, l | 0 <= k && l == k + 1 < |trace| && holds[k] ensures holds[l] {
      NextPass(trace[k], trace[l], dead, t);
    }
    KeptAlong(holds, i, j);
  }

  /**
   One synchronisation that begins after the monitor is done, and after the
   last late write of Running, ends the matter: from the moment it returns the
   status is never Starting or Running again, whatever else happens. After an
   exit by signal, which leaves no code, `kill -0` has to miss the process.
   */
  lemma OnePassSettles(trace: seq<State>, dead: bool, t: Tid, i: nat, j: nat, k: nat)
    requires IsPath(trace, dead, false) && i <= j <= k < |trace|
    requires Settled(trace[i]) && (trace[i].exitCode.Some? || dead)
    requires t in trace[i].syncs && trace[i].syncs[t] in {Filtering, Begun}
    requires t in trace[j].syncs && trace[j].syncs[t] == Idle
    ensures !Active(trace[k].status)
  {
    PassAtWorkAlong(trace, dead, t, i, j);
    InactiveForEver(trace, dead, false, j, k);
  }

  // ----- When the monitor's verdict is final

  ghost predicate Pending(s: State, pc: Sync) {
    exists t :: t in s.syncs && s.syncs[t] == pc
  }

  ghost predicate StopPending(s: State) {
    exists t :: t in s.stops && s.stops[t]
  }

  /** Somebody who read the status before the monitor's write is still going to write something else. */
  ghost predicate LateWriter(s: State)
    requires s.monitor.Done?
  {
    || Pending(s, WriteRunning)
    || (s.monitor.code == Some(0) && Pending(s, WriteFailed))
    || (s.monitor.code != Some(0) && StopPending(s))
  }

  ghost predicate VerdictHolds(s: State) {
    Inv(s) && s.monitor.Done? && s.status == MonitorVerdict(s.monitor.code)
  }

  /** Without a new stop, no path from here shows another status. */
  ghost predicate VerdictFinal(s: State)
    requires s.monitor.Done?
  {
    forall trace: seq<State> | IsPath(trace, false, true) && trace[0] == s ::
      trace[|trace| - 1].status == MonitorVerdict(s.monitor.code)
  }

  lemma NoLateWriterStays(s: State, s': State, a: Action)
    requires VerdictHolds(s) && !LateWriter(s)
    requires Step(s, s', a) && !a.BeginStop?
    ensures VerdictHolds(s') && s'.monitor == s.monitor && !LateWriter(s')
  {
    StepKeepsInv(s, s', a);
    match a {
      case SyncStep(t) => NoLateWriterSync(s, s', t);
      case _ =>
    }
  }

  lemma NoLateWriterSync(s: State, s': State, t: Tid)
    requires VerdictHolds(s) && !LateWriter(s)
    requires Step(s, s', SyncStep(t))
    ensures s'.monitor == s.monitor && !LateWriter(s') && s'.status == s.status
  {
    assert s.syncs[t] != WriteRunning && (s.syncs[t] == WriteFailed ==> s.monitor.code != Some(0));
  }

  lemma {:induction false} NoLateWriterAlong(trace: seq<State>, k: nat)
    requires IsPath(trace, false, true) && k < |trace|
    requires VerdictHolds(trace[0]) && !LateWriter(trace[0])
    ensures VerdictHolds(trace[k]) && trace[k].monitor == trace[0].monitor && !LateWriter(trace[k])
    decreases k
  {
    if k > 0 {
      NoLateWriterAlong(trace, k - 1);
      assert Next(trace[k - 1], trace[k], false, true);
      var a :| Step(trace[k - 1], trace[k], a) && Allowed(a, false, true);
      NoLateWriterStays(trace[k - 1], trace[k], a);
    }
  }

  /** The monitor's verdict, once written, is final exactly when no late writer is left. */
  lemma VerdictFinalExact(s: State)
    requires VerdictHolds(s)
    ensures VerdictFinal(s) <==> !LateWriter(s)
  {
    if LateWriter(s) {
      var trace: seq<State>;
      if Pending(s, WriteRunning) {
        var t :| t in s.syncs && s.syncs[t] == WriteRunning;
        trace := Extend([s], false, SyncStep(t));
      } else if s.monitor.code == Some(0) {
        var t :| t in s.syncs && s.syncs[t] == WriteFailed;
        trace := Extend([s], false, SyncStep(t));
      } else {
        var t :| t in s.stops && s.stops[t];
        trace := Extend([s], false, StopSucceeds(t));
      }
      assert trace[|trace| - 1].status != MonitorVerdict(s.monitor.code);
    } else {
      forall trace: seq<State> | IsPath(trace, false, true) && trace[0] == s
        ensures trace[|trace| - 1].status == MonitorVerdict(s.monitor.code)
      {
        NoLateWriterAlong(trace, |trace| - 1);
      }
    }
  }

  predicate AboutToWrite(pc: Sync) {
    pc.WriteVerdict? || pc == WriteFailed || pc == WriteRunning
  }

  /** The status is not active and nobody is about to write it. */
  ghost predicate Frozen(s: State) {
    && Settled(s) && !Active(s.status) && !StopPending(s)
    && forall t :: t in s.syncs ==> !AboutToWrite(s.syncs[t])
  }

  lemma FrozenStays(s: State, s': State, a: Action)
    requires Frozen(s) && Step(s, s', a) && !a.BeginStop?
    ensures Frozen(s') && s'.status == s.status
  {
    SettledStays(s, s', a);
  }

  /** A frozen status, right or wrong, stays as it is until a stop begins: no sync corrects it. */
  lemma {:induction false} FrozenForGood(trace: seq<State>, dead: bool, k: nat)
    requires IsPath(trace, dead, true) && k < |trace| && Frozen(trace[0])
    ensures Frozen(trace[k]) && trace[k].status == trace[0].status
    decreases k
  {
    if k > 0 {
      FrozenForGood(trace, dead, k - 1);
      assert Next(trace[k - 1], trace[k], dead, true);
      var a :| Step(trace[k - 1], trace[k], a) && Allowed(a, dead, true);
      FrozenStays(trace[k - 1], trace[k], a);
    }
  }

  /** Such a late writer is reachable: a process that exits right after it was seen alive ends up as Running. */
  lemma TerminalStatusOverwritten() returns (trace: seq<State>)
    ensures IsPath(trace, false, true) && Init(trace[0])
    ensures exists i :: 0 <= i < |trace| && VerdictHolds(trace[i]) && LateWriter(trace[i])
    ensures trace[|trace| - 1].monitor == Done(Some(0)) && trace[|trace| - 1].status == Running
  {
    trace := SyncSeesStarting();
    trace := Extend(trace, false, ProcessExits(Some(0)));
    trace := Extend(trace, false, StoreExitTime);
    trace := Extend(trace, false, MonitorWrites);
    var i := |trace| - 1;
    assert Pending(trace[i], WriteRunning) by {
      assert trace[i].syncs[0] == WriteRunning;
    }
    assert VerdictHolds(trace[i]) && LateWriter(trace[i]);
    trace := Extend(trace, false, SyncStep(0));
    assert VerdictHolds(trace[i]);
  }

  /** And so is the other kind: a process that exits with code 0 is reported as Failed for good. */
  lemma CleanExitReadsFailed() returns (trace: seq<State>)
    ensures IsPath(trace, true, true) && Init(trace[0])
    ensures var last := trace[|trace| - 1];
            last.monitor == Done(Some(0)) && last.status == Failed && Frozen(last)
  {
    trace := SyncMissesProcess();
    trace := Extend(trace, true, StoreExitTime);
    trace := Extend(trace, true, MonitorWrites);
    trace := Extend(trace, true, SyncStep(0));
  }

  /** A sync has found no exit code and asks `kill -0`. */
  lemma SyncAsks(dead: bool) returns (trace: seq<State>)
    ensures IsPath(trace, dead, true) && Init(trace[0])
    ensures trace[|trace| - 1] == State(Starting, None, Waiting, map[0 := NoCode], map[])
  {
    trace := [State(Starting, None, Waiting, map[0 := Idle], map[])];
    trace := Extend(trace, dead, BeginSync(0));
    trace := Extend(trace, dead, SyncStep(0));
  }

  lemma SyncMissesProcess() returns (trace: seq<State>)
    ensures IsPath(trace, true, true) && Init(trace[0])
    ensures trace[|trace| - 1] == State(Starting, Some(0), CodeWritten(Some(0)), map[0 := WriteFailed], map[])
  {
    trace := SyncAsks(true);
    trace := Extend(trace, true, ProcessExits(Some(0)));
    trace := Extend(trace, true, Kill(0, Dead));
    trace := Extend(trace, true, SyncStep(0));
  }

  lemma SyncSeesStarting() returns (trace: seq<State>)
    ensures IsPath(trace, false, true) && Init(trace[0])
    ensures trace[|trace| - 1] == State(Starting, None, Waiting, map[0 := WriteRunning], map[])
  {
    trace := SyncAsks(false);
    trace := Extend(trace, false, Kill(0, Alive));
    trace := Extend(trace, false, SyncStep(0));
  }

  lemma Extend(trace: seq<State>, dead: bool, a: Action) returns (longer: seq<State>)
    requires IsPath(trace, dead, true) && Allowed(a, dead, true) && Exec(trace[|trace| - 1], a).Some?
    ensures IsPath(longer, dead, true) && longer == trace + [Exec(trace[|trace| - 1], a).value]
  {
    var s := trace[|trace| - 1];
    assert Step(s, Exec(s, a).value, a);
    longer := trace + [Exec(s, a).value];
  }
}
