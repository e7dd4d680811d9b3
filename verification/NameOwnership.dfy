/**
 Who owns a process name. Starts, stops, restarts and cleans run concurrently;
 each operation on one of the two registry maps is one atomic step, and any
 thread may be overtaken between two steps.
 */
module NameOwnership {
  import opened Sequences
  import opened ProcessRegistry

  type Tid = nat

  /** What a thread does after a stop: nothing, restart the process, or stop the next one of a clean. */
  datatype Then = Return | ThenStart(key: Key) | ThenStops(ids: seq<Id>)

  /** Where a thread is. */
  datatype Pc =
    | Idle
    | StartLookup(key: Key)
    | StartCheck(key: Key, id: Id)            // read the status of a process found under the key
    | StartRemove(key: Key, id: Id)           // it is dead: unregister it
    | StartRelease(key: Key, removed: Key)    // unregistered: release its name
    | StartReserve(key: Key)
    | StartLaunch(key: Key)                   // parse the pattern, launch the process
    | StartDrop(key: Key)                     // it failed: the guard is dropped
    | StartAdd(key: Key)
    | StartKeep(key: Key)                     // registered: the guard is defused
    | RestartLookup(target: Id)
    | CleanSnapshot
    | StopLookup(target: Id, next: Then)
    | StopRunning(id: Id, next: Then)         // signals and waiting
    | StopRemove(id: Id, next: Then)
    | StopRelease(removed: Key, next: Then)

  datatype State = State(
    processes: map<Id, Key>,
    reserved: set<Key>,
    used: set<Id>,            // ids drawn so far; a fresh one is in none of them
    threads: map<Tid, Pc>)

  /** What a step observes or is asked to do. */
  datatype Event =
    | BeginStart(key: Key)
    | BeginStop(target: Id)
    | BeginRestart(target: Id)
    | BeginClean
    | Found(id: Id)
    | NotFound
    | Snapshot(ids: seq<Id>)
    | Alive(id: Id)    // Running, Starting or Stopping
    | Dead(id: Id)     // Stopped or Failed
    | MapRemove
    | Release
    | Reserve
    | Launched
    | LaunchFailed
    | Register(id: Id)
    | Defuse
    | StopDone(id: Id)
    | StopFailed(id: Id)
    | Cancelled        // the caller went away

  function Goto(s: State, t: Tid, pc: Pc): State {
    s.(threads := s.threads[t := pc])
  }

  function Continue(next: Then): Pc {
    match next
    case Return => Idle
    case ThenStart(key) => StartLookup(key)
    case ThenStops(ids) => if ids == [] then Idle else StopLookup(ids[0], ThenStops(ids[1..]))
  }

  /** A failed stop ends a restart, but not a clean. */
  function AfterFailure(next: Then): Pc {
    if next.ThenStops? then Continue(next) else Idle
  }

  /** One step of thread `t`; None where the event is not possible there. */
  function Exec(s: State, t: Tid, e: Event): Option<State>
    requires t in s.threads
  {
    match (s.threads[t], e)
    // requests
    case (Idle, BeginStart(key)) => Some(Goto(s, t, StartLookup(key)))
    case (Idle, BeginStop(target)) => Some(Goto(s, t, StopLookup(target, Return)))
    case (Idle, BeginRestart(target)) => Some(Goto(s, t, RestartLookup(target)))
    case (Idle, BeginClean) => Some(Goto(s, t, CleanSnapshot))
    // start
    case (StartLookup(key), Found(id)) =>
      if id in s.processes && s.processes[id] == key then Some(Goto(s, t, StartCheck(key, id))) else None
    case (StartLookup(key), NotFound) => Some(Goto(s, t, StartReserve(key)))
    case (StartCheck(key, id), Alive(seen)) => if seen == id then Some(Goto(s, t, Idle)) else None
    case (StartCheck(key, id), Dead(seen)) => if seen == id then Some(Goto(s, t, StartRemove(key, id))) else None
    case (StartRemove(key, id), MapRemove) =>
      if id in s.processes
      then Some(Goto(s, t, StartRelease(key, s.processes[id])).(processes := s.processes - {id}))
      else Some(Goto(s, t, StartReserve(key)))
    case (StartRelease(key, removed), Release) =>
      Some(Goto(s, t, StartReserve(key)).(reserved := s.reserved - {removed}))
    case (StartReserve(key), Reserve) =>
      if key in s.reserved then Some(Goto(s, t, Idle))
      else Some(Goto(s, t, StartLaunch(key)).(reserved := s.reserved + {key}))
    case (StartLaunch(key), Launched) => Some(Goto(s, t, StartAdd(key)))
    case (StartLaunch(key), LaunchFailed) => Some(Goto(s, t, StartDrop(key)))
    case (StartLaunch(key), Cancelled) => Some(Goto(s, t, StartDrop(key)))
    case (StartDrop(key), Release) => Some(Goto(s, t, Idle).(reserved := s.reserved - {key}))
    case (StartAdd(key), Register(id)) =>
      if id in s.used then None
      else Some(Goto(s, t, StartKeep(key)).(processes := s.processes[id := key], used := s.used + {id}))
    case (StartKeep(key), Defuse) => Some(Goto(s, t, Idle))
    // restart and clean
    case (RestartLookup(target), Found(id)) =>
      if id in s.processes then Some(Goto(s, t, StopLookup(target, ThenStart(s.processes[id])))) else None
    case (RestartLookup(target), NotFound) => Some(Goto(s, t, Idle))
    case (CleanSnapshot, Snapshot(ids)) => Some(Goto(s, t, Continue(ThenStops(ids))))
    // stop
    case (StopLookup(target, next), Found(id)) =>
      if id in s.processes then Some(Goto(s, t, StopRunning(id, next))) else None
    case (StopLookup(target, next), NotFound) => Some(Goto(s, t, AfterFailure(next)))
    case (StopRunning(id, next), StopDone(done)) =>
      if done == id then Some(Goto(s, t, StopRemove(id, next))) else None
    case (StopRunning(id, next), StopFailed(failed)) =>
      if failed == id then Some(Goto(s, t, AfterFailure(next))) else None
    case (StopRunning(id, next), Cancelled) => Some(Goto(s, t, Idle))
    case (StopRemove(id, next), MapRemove) =>
      if id in s.processes
      then Some(Goto(s, t, StopRelease(s.processes[id], next)).(processes := s.processes - {id}))
      else Some(Goto(s, t, Continue(next)))
    case (StopRelease(removed, next), Release) =>
      Some(Goto(s, t, Continue(next)).(reserved := s.reserved - {removed}))
    case _ => None
  }

  predicate Step(s: State, s': State, t: Tid, e: Event) {
    t in s.threads && Exec(s, t, e) == Some(s')
  }

  // ----- Owners

  /** The name a thread is responsible for, if any. */
  function Held(pc: Pc): Option<Key> {
    match pc
    case StartLaunch(key) => Some(key)
    case StartDrop(key) => Some(key)
    case StartAdd(key) => Some(key)
    case StartRelease(_, removed) => Some(removed)
    case StopRelease(removed, _) => Some(removed)
    case _ => None
  }

  /** A name belongs to a registered process, to a start in flight, or to a remover that has yet to release it. */
  datatype Owner = Registered(id: Id) | InFlight(t: Tid)

  predicate Owns(s: State, o: Owner, k: Key) {
    match o
    case Registered(id) => id in s.processes && s.processes[id] == k
    case InFlight(t) => t in s.threads && Held(s.threads[t]) == Some(k)
  }

  ghost predicate OwnersMatch(s: State) {
    && (forall o, k :: Owns(s, o, k) ==> k in s.reserved)
    && (forall k :: k in s.reserved ==> exists o :: Owns(s, o, k))
    && (forall o, p, k :: Owns(s, o, k) && Owns(s, p, k) ==> o == p)
  }

  /** The reserved names are the owned ones, each with exactly one owner. */
  ghost predicate Inv(s: State) {
    && (forall id :: id in s.processes ==> id in s.used)
    && OwnersMatch(s)
  }

  ghost predicate Init(s: State) {
    s.processes == map[] && s.reserved == {} && s.used == {} && forall t :: t in s.threads ==> s.threads[t] == Idle
  }

  // ----- What a step does to the owners

  /** Who gives up a name and who gets it; no one on either side where a name leaves or enters the system. */
  datatype Move = Nothing | Move(key: Key, source: Option<Owner>, target: Option<Owner>)

  function MoveOf(s: State, t: Tid, e: Event): Move
    requires t in s.threads
  {
    match (s.threads[t], e)
    case (StartRemove(_, id), MapRemove) =>
      if id in s.processes then Move(s.processes[id], Some(Registered(id)), Some(InFlight(t))) else Nothing
    case (StopRemove(id, _), MapRemove) =>
      if id in s.processes then Move(s.processes[id], Some(Registered(id)), Some(InFlight(t))) else Nothing
    case (StartReserve(key), Reserve) =>
      if key in s.reserved then Nothing else Move(key, None, Some(InFlight(t)))
    case (StartAdd(key), Register(id)) => Move(key, Some(InFlight(t)), Some(Registered(id)))
    case (StartRelease(_, removed), Release) => Move(removed, Some(InFlight(t)), None)
    case (StopRelease(removed, _), Release) => Move(removed, Some(InFlight(t)), None)
    case (StartDrop(key), Release) => Move(key, Some(InFlight(t)), None)
    case _ => Nothing
  }

  ghost predicate SameOwners(s: State, s': State) {
    && s'.reserved == s.reserved
    && forall o, k :: Owns(s', o, k) <==> Owns(s, o, k)
  }

  /** The name changes hands, and nothing else does. */
  ghost predicate Moved(s: State, s': State, key: Key, source: Option<Owner>, target: Option<Owner>) {
    && (source.Some? || target.Some?)
    && (source.Some? ==> Owns(s, source.value, key))
    && (source.None? ==> key !in s.reserved)
    && (target.Some? ==> forall k :: !Owns(s, target.value, k))
    && s'.reserved == (if target.Some? then s.reserved + {key} else s.reserved - {key})
    && forall o, k :: Owns(s', o, k) <==> (target == Some(o) && k == key) || (source != Some(o) && Owns(s, o, k))
  }

  /** An owner is gone for one name only: nobody owns two. */
  lemma OneName(s: State, o: Owner, a: Key, b: Key)
    requires Owns(s, o, a) && Owns(s, o, b)
    ensures a == b
  {
  }

  lemma SameKeeps(s: State, s': State)
    requires OwnersMatch(s) && SameOwners(s, s')
    ensures OwnersMatch(s')
  {
    forall k | k in s'.reserved ensures exists o :: Owns(s', o, k) {
      var o :| Owns(s, o, k);
      assert Owns(s', o, k);
    }
  }

  lemma MovedKeeps(s: State, s': State, key: Key, source: Option<Owner>, target: Option<Owner>)
    requires OwnersMatch(s) && Moved(s, s', key, source, target)
    ensures OwnersMatch(s')
  {
    forall k | k in s'.reserved ensures exists o :: Owns(s', o, k) {
      if k == key {
        assert Owns(s', target.value, key);
      } else {
        var o :| Owns(s, o, k);
        if source == Some(o) {
          OneName(s, o, k, key);
        }
        assert Owns(s', o, k);
      }
    }
    forall o, k | Owns(s', o, k) ensures k in s'.reserved {
      if k != key {
        assert Owns(s, o, k);
      }
    }
  }

  lemma RemovalMoves(s: State, s': State, t: Tid)
    requires Inv(s) && Step(s, s', t, MapRemove)
    ensures match MoveOf(s, t, MapRemove)
            case Nothing => SameOwners(s, s')
            case Move(key, source, target) => Moved(s, s', key, source, target)
  {
    match MoveOf(s, t, MapRemove) {
      case Nothing =>
      case Move(key, source, target) =>
        assert Owns(s, source.value, key);
    }
  }

  lemma RegistrationMoves(s: State, s': State, t: Tid, id: Id)
    requires Inv(s) && Step(s, s', t, Register(id))
    ensures match MoveOf(s, t, Register(id))
            case Nothing => SameOwners(s, s')
            case Move(key, source, target) => Moved(s, s', key, source, target)
  {
    match MoveOf(s, t, Register(id)) {
      case Nothing =>
      case Move(key, source, target) =>
        assert Owns(s, source.value, key);
    }
  }

  lemma ReservationMoves(s: State, s': State, t: Tid)
    requires Inv(s) && Step(s, s', t, Reserve)
    ensures match MoveOf(s, t, Reserve)
            case Nothing => SameOwners(s, s')
            case Move(key, source, target) => Moved(s, s', key, source, target)
  {
  }

  lemma ReleaseMoves(s: State, s': State, t: Tid)
    requires Inv(s) && Step(s, s', t, Release)
    ensures MoveOf(s, t, Release).Move?
    ensures match MoveOf(s, t, Release)
            case Nothing => true
            case Move(key, source, target) => Moved(s, s', key, source, target)
  {
    assert Owns(s, InFlight(t), MoveOf(s, t, Release).key);
  }

  /** The steps that touch neither map and leave the thread with what it held. */
  lemma QuietStep(s: State, s': State, t: Tid, e: Event)
    requires Step(s, s', t, e)
    requires !e.MapRemove? && !e.Register? && !e.Reserve? && !e.Release?
    ensures MoveOf(s, t, e) == Nothing
    ensures s'.processes == s.processes && s'.reserved == s.reserved
    ensures s'.threads == s.threads[t := s'.threads[t]] && Held(s'.threads[t]) == Held(s.threads[t])
  {
  }

  /** Every step moves at most the one name `MoveOf` says. */
  lemma StepMoves(s: State, s': State, t: Tid, e: Event)
    requires Inv(s) && Step(s, s', t, e)
    ensures match MoveOf(s, t, e)
            case Nothing => SameOwners(s, s')
            case Move(key, source, target) => Moved(s, s', key, source, target)
  {
    match e {
      case MapRemove => RemovalMoves(s, s', t);
      case Register(id) => RegistrationMoves(s, s', t, id);
      case Reserve => ReservationMoves(s, s', t);
      case Release => ReleaseMoves(s, s', t);
      case _ => QuietStep(s, s', t, e);
    }
  }

  lemma StepKeepsInv(s: State, s': State, t: Tid, e: Event)
    requires Inv(s) && Step(s, s', t, e)
    ensures Inv(s')
  {
    StepMoves(s, s', t, e);
    match MoveOf(s, t, e) {
      case Nothing => SameKeeps(s, s');
      case Move(key, source, target) => MovedKeeps(s, s', key, source, target);
    }
  }

  // ----- Runs

  ghost predicate Next(s: State, s': State) {
    exists t, e :: Step(s, s', t, e)
  }

  ghost predicate IsRun(trace: seq<State>) {
    && trace != [] && Init(trace[0])
    && forall i, j :: 0 <= i && j == i + 1 < |trace| ==> Next(trace[i], trace[j])
  }

  /** Every interleaving keeps the ownership invariant. */
  lemma {:induction false} RunKeepsInv(trace: seq<State>, i: nat)
    requires IsRun(trace) && i < |trace|
    ensures Inv(trace[i])
    decreases i
  {
    if i > 0 {
      RunKeepsInv(trace, i - 1);
      assert Next(trace[i - 1], trace[i]);
      var t, e :| Step(trace[i - 1], trace[i], t, e);
      StepKeepsInv(trace[i - 1], trace[i], t, e);
    }
  }

  /** In every reachable state a project and name has at most one registered process. */
  lemma AtMostOneProcess(trace: seq<State>, i: nat, a: Id, b: Id)
    requires IsRun(trace) && i < |trace|
    requires a in trace[i].processes && b in trace[i].processes && trace[i].processes[a] == trace[i].processes[b]
    ensures a == b
  {
    RunKeepsInv(trace, i);
    assert Owns(trace[i], Registered(a), trace[i].processes[a]) && Owns(trace[i], Registered(b), trace[i].processes[b]);
  }

  /** So the registry's lookups by project and name are the same for every walk over the map. */
  lemma LookupsDeterministic(
    trace: seq<State>, i: nat, isUuid: string -> bool, m: Processes, a: seq<Proxy>, b: seq<Proxy>,
    nameOrId: string, project: string)
    requires IsRun(trace) && i < |trace|
    requires trace[i].processes == map id | id in m :: m[id].key
    requires Enumerates(a, m) && Enumerates(b, m)
    ensures ByNameOrIdWithProject(isUuid, a, m, nameOrId, Some(project))
         == ByNameOrIdWithProject(isUuid, b, m, nameOrId, Some(project))
  {
    forall x, y | x in m && y in m && m[x].key == m[y].key ensures x == y {
      AtMostOneProcess(trace, i, x, y);
    }
    ProjectLookupDeterministic(isUuid, m, a, b, nameOrId, project);
  }

  /** A name disappears from the reserved ones only when its one owner, a thread, releases it; then nobody owns it. */
  lemma OnlyOwnerReleases(s: State, s': State, t: Tid, e: Event, key: Key)
    requires Inv(s) && Step(s, s', t, e)
    requires key in s.reserved && key !in s'.reserved
    ensures e == Release && Owns(s, InFlight(t), key)
    ensures forall o :: Owns(s, o, key) ==> o == InFlight(t)
    ensures forall o :: !Owns(s', o, key)
  {
    StepMoves(s, s', t, e);
    StepKeepsInv(s, s', t, e);
  }

  /** Every release removes the releasing thread's own name, and that name was reserved. */
  lemma ReleasesItsOwn(s: State, s': State, t: Tid)
    requires Inv(s) && Step(s, s', t, Release)
    ensures Held(s.threads[t]).Some? && Held(s.threads[t]).value in s.reserved
    ensures s'.reserved == s.reserved - {Held(s.threads[t]).value}
    ensures Held(s'.threads[t]).None?
  {
    assert Owns(s, InFlight(t), Held(s.threads[t]).value);
  }

  /** An owner loses its name only by its own step, or, when it is a process, by being removed. */
  lemma OnlyOwnSteps(s: State, s': State, t: Tid, e: Event, o: Owner, key: Key)
    requires Inv(s) && Step(s, s', t, e)
    requires Owns(s, o, key) && !Owns(s', o, key)
    ensures match o
            case InFlight(u) => u == t && (e == Release || e.Register?)
            case Registered(id) => e == MapRemove && Owns(s', InFlight(t), key)
  {
    StepMoves(s, s', t, e);
  }

  /** A reservation is granted exactly when nobody owns the name. */
  lemma ReserveExact(s: State, s': State, t: Tid, key: Key)
    requires Inv(s) && Step(s, s', t, Reserve) && s.threads[t] == StartReserve(key)
    ensures Owns(s', InFlight(t), key) <==> forall o :: !Owns(s, o, key)
    ensures s'.threads[t] == Idle <==> exists o :: Owns(s, o, key)
  {
  }

  /** With no start or removal in flight, the reserved names are those of the registered processes. */
  lemma QuiescentExact(s: State)
    requires Inv(s) && forall t :: t in s.threads ==> Held(s.threads[t]).None?
    ensures s.reserved == set id | id in s.processes :: s.processes[id]
  {
    forall k | k in s.reserved ensures k in set id | id in s.processes :: s.processes[id] {
      var o :| Owns(s, o, k);
    }
    forall id | id in s.processes ensures s.processes[id] in s.reserved {
      assert Owns(s, Registered(id), s.processes[id]);
    }
  }

  /** A pattern that does not parse, a launch that fails or a caller that goes away frees the name again. */
  lemma FailedLaunchFreesName(s: State, s1: State, between: State, s2: State, t: Tid, e: Event, key: Key)
    requires Inv(s) && Step(s, s1, t, e) && (e == LaunchFailed || e == Cancelled) && s.threads[t] == StartLaunch(key)
    requires Inv(between) && t in between.threads && between.threads[t] == s1.threads[t]
    requires Step(between, s2, t, Release)
    ensures s1.processes == s.processes && s2.processes == between.processes
    ensures s2.threads[t] == Idle && s2.reserved == between.reserved - {key} && forall o :: !Owns(s2, o, key)
  {
    assert Owns(between, InFlight(t), key);
    StepKeepsInv(between, s2, t, Release);
  }

  /** A request whose caller goes away changes neither map, and ends unless it has a name to give back. */
  lemma CancelledEnds(s: State, s': State, t: Tid)
    requires Step(s, s', t, Cancelled)
    ensures s'.processes == s.processes && s'.reserved == s.reserved
    ensures Held(s.threads[t]).None? ==> s'.threads[t] == Idle
  {
  }

  /** A stop that fails leaves the process registered and its name reserved. */
  lemma FailedStopKeepsName(s: State, s': State, t: Tid, id: Id)
    requires Inv(s) && Step(s, s', t, StopFailed(id))
    requires id in s.processes
    ensures s'.processes == s.processes && s'.reserved == s.reserved && s'.processes[id] in s'.reserved
  {
    assert Owns(s, Registered(id), s.processes[id]);
  }

  /** How many of its own steps a thread is from holding nothing. */
  function StepsToLetGo(pc: Pc): nat {
    match pc
    case StartLaunch(_) => 2
    case StartDrop(_) => 1
    case StartAdd(_) => 1
    case StartRelease(_, _) => 1
    case StopRelease(_, _) => 1
    case _ => 0
  }

  /** No name is stuck: a thread that holds one can always take a step towards letting go, whatever the others do. */
  lemma HolderCanStep(s: State, t: Tid, unused: Id)
    requires t in s.threads && Held(s.threads[t]).Some? && unused !in s.used
    ensures exists e, s' ::
      Step(s, s', t, e) && StepsToLetGo(s'.threads[t]) < StepsToLetGo(s.threads[t])
    ensures StepsToLetGo(s.threads[t]) > 0
  {
    var e :=
      match s.threads[t]
      case StartLaunch(_) => LaunchFailed
      case StartAdd(_) => Register(unused)
      case _ => Release;
    var s' := Exec(s, t, e).value;
    assert Step(s, s', t, e);
  }

  // ----- Who removes a process

  /** One step of a run: the thread and what it observed or was asked. */
  datatype Turn = Turn(t: Tid, e: Event)

  ghost predicate IsHistory(trace: seq<State>, turns: seq<Turn>) {
    && |trace| == |turns| + 1 && Init(trace[0])
    && forall i, j :: 0 <= i && j == i + 1 < |trace| ==> Step(trace[i], trace[j], turns[i].t, turns[i].e)
  }

  lemma HistoryIsRun(trace: seq<State>, turns: seq<Turn>)
    requires IsHistory(trace, turns)
    ensures IsRun(trace)
  {
  }

  lemma {:induction false} RunHasHistory(trace: seq<State>) returns (turns: seq<Turn>)
    requires IsRun(trace)
    ensures IsHistory(trace, turns)
    decreases |trace|
  {
    turns := [];
    if |trace| > 1 {
      var n := |trace| - 1;
      turns := RunHasHistory(trace[..n]);
      assert Next(trace[n - 1], trace[n]);
      var t, e :| Step(trace[n - 1], trace[n], t, e);
      turns := turns + [Turn(t, e)];
    }
  }

  /** The last step of thread `t` before step `i` is step `j`. */
  predicate LastOwnTurn(turns: seq<Turn>, t: Tid, i: nat, j: nat) {
    j < i <= |turns| && turns[j].t == t && forall k :: j < k < i ==> turns[k].t != t
  }

  /** The last change of a value that only the marked steps change. */
  lemma {:induction false} LastChange<P>(values: seq<P>, marked: seq<bool>, i: nat) returns (j: nat)
    requires |values| == |marked| + 1 && i <= |marked| && values[i] != values[0]
    requires forall k, l :: 0 <= k < |marked| && l == k + 1 && !marked[k] ==> values[l] == values[k]
    ensures j < i && marked[j] && values[j + 1] == values[i] && forall k :: j < k < i ==> !marked[k]
    decreases i
  {
    j := i - 1;
    if !marked[j] {
      j := LastChange(values, marked, j);
    }
  }

  function PcIn(s: State, t: Tid): Pc {
    if t in s.threads then s.threads[t] else Idle
  }

  lemma OthersKeepPc(s: State, s': State, u: Tid, e: Event, t: Tid)
    requires Step(s, s', u, e) && t != u
    ensures PcIn(s', t) == PcIn(s, t)
  {
  }

  /** A thread that is not idle has taken a step, and is where the last one led. */
  lemma CameFrom(trace: seq<State>, turns: seq<Turn>, t: Tid, i: nat) returns (j: nat)
    requires IsHistory(trace, turns) && i <= |turns| && PcIn(trace[i], t) != Idle
    ensures LastOwnTurn(turns, t, i, j) && PcIn(trace[j + 1], t) == PcIn(trace[i], t)
  {
    var pcs := Map((s: State) => PcIn(s, t), trace);
    var own := Map((turn: Turn) => turn.t == t, turns);
    forall k, l | 0 <= k < |own| && l == k + 1 && !own[k] ensures pcs[l] == pcs[k] {
      OthersKeepPc(trace[k], trace[l], turns[k].t, turns[k].e, t);
    }
    j := LastChange(pcs, own, i);
    assert forall k :: j < k < i ==> own[k] == (turns[k].t == t);
  }

  /** A process is about to be removed only where it was seen dead or its stop has ended. */
  lemma AboutToRemove(s: State, s': State, t: Tid, e: Event, id: Id)
    requires Step(s, s', t, e)
    requires (exists key :: s'.threads[t] == StartRemove(key, id))
          || (exists next :: s'.threads[t] == StopRemove(id, next))
    ensures e == Dead(id) || e == StopDone(id)
  {
  }

  lemma OnlyMapRemoves(s: State, s': State, t: Tid, e: Event, id: Id)
    requires Step(s, s', t, e) && id in s.processes && id !in s'.processes
    ensures e == MapRemove
    ensures (exists key :: s.threads[t] == StartRemove(key, id))
         || (exists next :: s.threads[t] == StopRemove(id, next))
  {
  }

  /** In every run, a process is unregistered only by a thread that has just seen it dead or stopped it. */
  lemma RemovedWasDead(trace: seq<State>, turns: seq<Turn>, i: nat, id: Id) returns (j: nat)
    requires IsHistory(trace, turns) && i < |turns|
    requires id in trace[i].processes && id !in trace[i + 1].processes
    ensures turns[i].e == MapRemove
    ensures LastOwnTurn(turns, turns[i].t, i, j)
    ensures turns[j].e == Dead(id) || turns[j].e == StopDone(id)
  {
    var t := turns[i].t;
    assert Step(trace[i], trace[i + 1], t, turns[i].e);
    OnlyMapRemoves(trace[i], trace[i + 1], t, turns[i].e, id);
    j := CameFrom(trace, turns, t, i);
    assert Step(trace[j], trace[j + 1], t, turns[j].e);
    AboutToRemove(trace[j], trace[j + 1], t, turns[j].e, id);
  }

  /** What a lookup finds is registered, and for a start it is under the key of that start. */
  lemma FoundIsRegistered(s: State, s': State, t: Tid, id: Id)
    requires Step(s, s', t, Found(id))
    ensures id in s.processes && (s.threads[t].StartLookup? ==> s.processes[id] == s.threads[t].key)
  {
  }

  /** A start that sees a live process under its key ends there and changes neither map. */
  lemma AliveEndsStart(s: State, s': State, t: Tid, id: Id)
    requires Step(s, s', t, Alive(id))
    ensures s' == s.(threads := s.threads[t := Idle])
  {
  }

  // ----- What an operation does when nobody overtakes it

  /** A thread finds a process, sees that it is over, unregisters it and releases its name. */
  predicate Removes(path: seq<State>, t: Tid, id: Id, over: Event) {
    && |path| == 5
    && Step(path[0], path[1], t, Found(id)) && Step(path[1], path[2], t, over)
    && Step(path[2], path[3], t, MapRemove) && Step(path[3], path[4], t, Release)
  }

  /** A thread reserves a name, launches a process and registers it. */
  predicate Launches(path: seq<State>, t: Tid, id: Id) {
    && |path| == 5
    && Step(path[0], path[1], t, Reserve) && Step(path[1], path[2], t, Launched)
    && Step(path[2], path[3], t, Register(id)) && Step(path[3], path[4], t, Defuse)
  }

  /** A thread finds a process and fails to stop it. */
  predicate FailsToStop(path: seq<State>, t: Tid, id: Id) {
    |path| == 3 && Step(path[0], path[1], t, Found(id)) && Step(path[1], path[2], t, StopFailed(id))
  }

  lemma ReserveAlone(s: State, t: Tid, key: Key) returns (a: State, b: State)
    requires t in s.threads && s.threads[t] == StartReserve(key) && key !in s.reserved
    ensures Step(s, a, t, Reserve) && Step(a, b, t, Launched)
    ensures b == State(s.processes, s.reserved + {key}, s.used, s.threads[t := StartAdd(key)])
  {
    a := Goto(s, t, StartLaunch(key)).(reserved := s.reserved + {key});
    b := Goto(a, t, StartAdd(key));
    assert b.threads == s.threads[t := StartAdd(key)];
  }

  lemma RegisterAlone(s: State, t: Tid, key: Key, id: Id) returns (a: State, b: State)
    requires t in s.threads && s.threads[t] == StartAdd(key) && id !in s.used
    ensures Step(s, a, t, Register(id)) && Step(a, b, t, Defuse)
    ensures b == State(s.processes[id := key], s.reserved, s.used + {id}, s.threads[t := Idle])
  {
    a := Goto(s, t, StartKeep(key)).(processes := s.processes[id := key], used := s.used + {id});
    b := Goto(a, t, Idle);
    assert b.threads == s.threads[t := Idle];
  }

  lemma LaunchAlone(s: State, t: Tid, key: Key, id: Id) returns (path: seq<State>)
    requires t in s.threads && s.threads[t] == StartReserve(key) && key !in s.reserved && id !in s.used
    ensures Launches(path, t, id) && path[0] == s
    ensures path[4] == State(s.processes[id := key], s.reserved + {key}, s.used + {id}, s.threads[t := Idle])
  {
    var a, b := ReserveAlone(s, t, key);
    var c, d := RegisterAlone(b, t, key, id);
    path := [s, a, b, c, d];
    assert d.threads == s.threads[t := Idle];
  }

  lemma SeeDead(s: State, t: Tid, key: Key, id: Id) returns (a: State, b: State)
    requires t in s.threads && s.threads[t] == StartLookup(key) && id in s.processes && s.processes[id] == key
    ensures Step(s, a, t, Found(id)) && Step(a, b, t, Dead(id))
    ensures b == Goto(s, t, StartRemove(key, id))
  {
    a := Goto(s, t, StartCheck(key, id));
    b := Goto(a, t, StartRemove(key, id));
    assert b.threads == s.threads[t := StartRemove(key, id)];
  }

  lemma UnregisterDead(s: State, t: Tid, key: Key, id: Id) returns (a: State, b: State)
    requires t in s.threads && s.threads[t] == StartRemove(key, id) && id in s.processes
    ensures Step(s, a, t, MapRemove) && Step(a, b, t, Release)
    ensures b == State(s.processes - {id}, s.reserved - {s.processes[id]}, s.used, s.threads[t := StartReserve(key)])
  {
    a := Goto(s, t, StartRelease(key, s.processes[id])).(processes := s.processes - {id});
    b := Goto(a, t, StartReserve(key)).(reserved := s.reserved - {s.processes[id]});
    assert b.threads == s.threads[t := StartReserve(key)];
  }

  lemma RemoveDead(s: State, t: Tid, key: Key, id: Id) returns (path: seq<State>)
    requires t in s.threads && s.threads[t] == StartLookup(key) && id in s.processes && s.processes[id] == key
    ensures Removes(path, t, id, Dead(id)) && path[0] == s
    ensures path[4] == State(s.processes - {id}, s.reserved - {key}, s.used, s.threads[t := StartReserve(key)])
  {
    var a, b := SeeDead(s, t, key, id);
    var c, d := UnregisterDead(b, t, key, id);
    path := [s, a, b, c, d];
    assert d.threads == s.threads[t := StartReserve(key)];
  }

  lemma SeeStopped(s: State, t: Tid, next: Then, target: Id, id: Id) returns (a: State, b: State)
    requires t in s.threads && s.threads[t] == StopLookup(target, next) && id in s.processes
    ensures Step(s, a, t, Found(id)) && Step(a, b, t, StopDone(id))
    ensures b == Goto(s, t, StopRemove(id, next))
  {
    a := Goto(s, t, StopRunning(id, next));
    b := Goto(a, t, StopRemove(id, next));
    assert b.threads == s.threads[t := StopRemove(id, next)];
  }

  lemma UnregisterStopped(s: State, t: Tid, next: Then, id: Id) returns (a: State, b: State)
    requires t in s.threads && s.threads[t] == StopRemove(id, next) && id in s.processes
    ensures Step(s, a, t, MapRemove) && Step(a, b, t, Release)
    ensures b == State(s.processes - {id}, s.reserved - {s.processes[id]}, s.used, s.threads[t := Continue(next)])
  {
    a := Goto(s, t, StopRelease(s.processes[id], next)).(processes := s.processes - {id});
    b := Goto(a, t, Continue(next)).(reserved := s.reserved - {s.processes[id]});
    assert b.threads == s.threads[t := Continue(next)];
  }

  lemma RemoveStopped(s: State, t: Tid, next: Then, target: Id, id: Id) returns (path: seq<State>)
    requires t in s.threads && s.threads[t] == StopLookup(target, next) && id in s.processes
    ensures Removes(path, t, id, StopDone(id)) && path[0] == s
    ensures path[4]
         == State(s.processes - {id}, s.reserved - {s.processes[id]}, s.used, s.threads[t := Continue(next)])
  {
    var a, b := SeeStopped(s, t, next, target, id);
    var c, d := UnregisterStopped(b, t, next, id);
    path := [s, a, b, c, d];
    assert d.threads == s.threads[t := Continue(next)];
  }

  lemma FailToStop(s: State, t: Tid, next: Then, target: Id, id: Id) returns (path: seq<State>)
    requires t in s.threads && s.threads[t] == StopLookup(target, next) && id in s.processes
    ensures FailsToStop(path, t, id) && path[0] == s
    ensures path[2] == Goto(s, t, AfterFailure(next))
  {
    var a := Goto(s, t, StopRunning(id, next));
    var b := Goto(a, t, AfterFailure(next));
    path := [s, a, b];
    assert b.threads == s.threads[t := AfterFailure(next)];
  }

  /** A start under a free name registers the new process and holds its name. */
  lemma StartAlone(s: State, t: Tid, key: Key, id: Id) returns (a: State, launch: seq<State>)
    requires t in s.threads && s.threads[t] == Idle && key !in s.reserved && id !in s.used
    ensures Launches(launch, t, id) && Step(s, a, t, BeginStart(key)) && Step(a, launch[0], t, NotFound)
    ensures launch[4] == State(s.processes[id := key], s.reserved + {key}, s.used + {id}, s.threads[t := Idle])
  {
    a := Goto(s, t, StartLookup(key));
    var b := Goto(a, t, StartReserve(key));
    launch := LaunchAlone(b, t, key, id);
    assert launch[4].threads == s.threads[t := Idle];
  }

  /** A start over a dead process of the name takes its place. */
  lemma StartOverDead(s: State, t: Tid, key: Key, dead: Id, id: Id)
    returns (clear: seq<State>, launch: seq<State>)
    requires t in s.threads && s.threads[t] == Idle && id !in s.used
    requires dead in s.processes && s.processes[dead] == key
    ensures Removes(clear, t, dead, Dead(dead)) && Launches(launch, t, id)
    ensures Step(s, clear[0], t, BeginStart(key)) && clear[4] == launch[0]
    ensures launch[4]
         == State((s.processes - {dead})[id := key], s.reserved + {key}, s.used + {id}, s.threads[t := Idle])
  {
    var a := Goto(s, t, StartLookup(key));
    clear := RemoveDead(a, t, key, dead);
    launch := LaunchAlone(clear[4], t, key, id);
    assert launch[4].threads == s.threads[t := Idle];
    assert s.reserved - {key} + {key} == s.reserved + {key};
  }

  /** A start over a live process of the name ends, and nothing has changed. */
  lemma StartOverAlive(s: State, t: Tid, key: Key, alive: Id) returns (a: State, b: State)
    requires t in s.threads && s.threads[t] == Idle
    requires alive in s.processes && s.processes[alive] == key
    ensures Step(s, a, t, BeginStart(key)) && Step(a, b, t, Found(alive)) && Step(b, s, t, Alive(alive))
  {
    a := Goto(s, t, StartLookup(key));
    b := Goto(a, t, StartCheck(key, alive));
    assert b.threads[t := Idle] == s.threads;
  }

  /** A stop unregisters the process and frees its name. */
  lemma StopAlone(s: State, t: Tid, id: Id) returns (stop: seq<State>)
    requires t in s.threads && s.threads[t] == Idle && id in s.processes
    ensures Removes(stop, t, id, StopDone(id)) && Step(s, stop[0], t, BeginStop(id))
    ensures stop[4] == State(s.processes - {id}, s.reserved - {s.processes[id]}, s.used, s.threads[t := Idle])
  {
    var a := Goto(s, t, StopLookup(id, Return));
    stop := RemoveStopped(a, t, Return, id, id);
    assert stop[4].threads == s.threads[t := Idle];
  }

  lemma RestartLooksUp(s: State, t: Tid, id: Id) returns (a: State, b: State)
    requires t in s.threads && s.threads[t] == Idle && id in s.processes
    ensures Step(s, a, t, BeginRestart(id)) && Step(a, b, t, Found(id))
    ensures b == Goto(s, t, StopLookup(id, ThenStart(s.processes[id])))
  {
    a := Goto(s, t, RestartLookup(id));
    b := Goto(a, t, StopLookup(id, ThenStart(s.processes[id])));
    assert b.threads == s.threads[t := StopLookup(id, ThenStart(s.processes[id]))];
  }

  /** A restart stops the process and starts a new one under its name. */
  lemma RestartAlone(s: State, t: Tid, id: Id, new': Id) returns (a: State, stop: seq<State>, launch: seq<State>)
    requires t in s.threads && s.threads[t] == Idle && id in s.processes && new' !in s.used
    ensures Removes(stop, t, id, StopDone(id)) && Launches(launch, t, new')
    ensures Step(s, a, t, BeginRestart(id)) && Step(a, stop[0], t, Found(id)) && Step(stop[4], launch[0], t, NotFound)
    ensures launch[4]
         == State((s.processes - {id})[new' := s.processes[id]], s.reserved + {s.processes[id]}, s.used + {new'},
                  s.threads[t := Idle])
  {
    var key := s.processes[id];
    var b;
    a, b := RestartLooksUp(s, t, id);
    stop := RemoveStopped(b, t, ThenStart(key), id, id);
    var c := Goto(stop[4], t, StartReserve(key));
    launch := LaunchAlone(c, t, key, new');
    assert launch[4].threads == s.threads[t := Idle];
    assert s.reserved - {key} + {key} == s.reserved + {key};
  }

  /** Where its stop fails, or finds the process gone, a restart ends, and nothing has changed. */
  lemma RestartFails(s: State, t: Tid, id: Id) returns (a: State, stop: seq<State>)
    requires t in s.threads && s.threads[t] == Idle && id in s.processes
    ensures FailsToStop(stop, t, id)
    ensures Step(s, a, t, BeginRestart(id)) && Step(a, stop[0], t, Found(id)) && stop[2] == s
    ensures Step(stop[0], s, t, NotFound)
  {
    var b;
    a, b := RestartLooksUp(s, t, id);
    stop := FailToStop(b, t, ThenStart(s.processes[id]), id, id);
    assert b.threads[t := Idle] == s.threads;
  }

  /** Where another thread was first to remove the process, its stopper goes on as it would have, and frees no name. */
  lemma RemovedMeanwhile(s: State, gone: State, t: Tid, next: Then, id: Id) returns (a: State, b: State, c: State)
    requires t in s.threads && s.threads[t] == StopRemove(id, next) && id in s.processes
    requires t in gone.threads && gone.threads[t] == s.threads[t] && id !in gone.processes
    ensures Step(s, a, t, MapRemove) && Step(a, b, t, Release) && Step(gone, c, t, MapRemove)
    ensures c.threads[t] == b.threads[t] && c.processes == gone.processes && c.reserved == gone.reserved
  {
    a, b := UnregisterStopped(s, t, next, id);
    c := Goto(gone, t, Continue(next));
  }

  /** Stopping or restarting what is not found changes nothing. */
  lemma NothingToStop(s: State, t: Tid, id: Id) returns (a: State, b: State)
    requires t in s.threads && s.threads[t] == Idle
    ensures Step(s, a, t, BeginStop(id)) && Step(a, s, t, NotFound)
    ensures Step(s, b, t, BeginRestart(id)) && Step(b, s, t, NotFound)
  {
    a := Goto(s, t, StopLookup(id, Return));
    b := Goto(s, t, RestartLookup(id));
    assert a.threads[t := Idle] == s.threads && b.threads[t := Idle] == s.threads;
  }

  /** A thread looks for a process that is not there any more. */
  predicate Misses(path: seq<State>, t: Tid) {
    |path| == 2 && Step(path[0], path[1], t, NotFound)
  }

  /** What a clean does about one process: it misses it, stops and removes it, or fails to stop it. */
  predicate Tries(path: seq<State>, t: Tid, id: Id, there: bool, stops: bool) {
    if !there then Misses(path, t)
    else if stops then Removes(path, t, id, StopDone(id))
    else FailsToStop(path, t, id)
  }

  /** A clean tries one process after the other; of those still there the ones in `stopped` end. */
  predicate CleansAll(s: State, t: Tid, ids: seq<Id>, stopped: set<Id>, legs: seq<seq<State>>, s': State)
    decreases |ids|
  {
    if ids == [] then legs == [] && s' == s
    else
      && legs != [] && Tries(legs[0], t, ids[0], ids[0] in s.processes, ids[0] in stopped) && legs[0][0] == s
      && CleansAll(legs[0][|legs[0]| - 1], t, ids[1..], stopped, legs[1..], s')
  }

  /** The processes a clean removes, and their names. */
  function Ended(ids: seq<Id>, stopped: set<Id>): set<Id> {
    set id | id in ids && id in stopped
  }

  function KeysOf(processes: map<Id, Key>, ids: set<Id>): set<Key> {
    set id | id in ids && id in processes :: processes[id]
  }

  predicate Distinct(ids: seq<Id>) {
    forall i, j :: 0 <= i < j < |ids| ==> ids[i] != ids[j]
  }

  lemma TryOne(s: State, t: Tid, ids: seq<Id>, stops: bool) returns (path: seq<State>, s': State)
    requires ids != [] && t in s.threads && s.threads[t] == Continue(ThenStops(ids))
    ensures Tries(path, t, ids[0], ids[0] in s.processes, stops) && path[0] == s && path[|path| - 1] == s'
    ensures s'.threads == s.threads[t := Continue(ThenStops(ids[1..]))] && s'.used == s.used
    ensures stops && ids[0] in s.processes ==>
              s'.processes == s.processes - {ids[0]} && s'.reserved == s.reserved - {s.processes[ids[0]]}
    ensures !(stops && ids[0] in s.processes) ==> s'.processes == s.processes && s'.reserved == s.reserved
  {
    if ids[0] !in s.processes {
      path := [s, Goto(s, t, Continue(ThenStops(ids[1..])))];
    } else if stops {
      path := RemoveStopped(s, t, ThenStops(ids[1..]), ids[0], ids[0]);
    } else {
      path := FailToStop(s, t, ThenStops(ids[1..]), ids[0], ids[0]);
    }
    s' := path[|path| - 1];
  }

  lemma EndedNext(processes: map<Id, Key>, ids: seq<Id>, stopped: set<Id>)
    requires ids != [] && Distinct(ids)
    ensures ids[0] in stopped ==> Ended(ids, stopped) == {ids[0]} + Ended(ids[1..], stopped)
    ensures ids[0] in stopped && ids[0] in processes ==>
              KeysOf(processes, Ended(ids, stopped))
              == {processes[ids[0]]} + KeysOf(processes - {ids[0]}, Ended(ids[1..], stopped))
    ensures ids[0] in stopped && ids[0] !in processes ==>
              KeysOf(processes, Ended(ids, stopped)) == KeysOf(processes, Ended(ids[1..], stopped))
    ensures ids[0] !in stopped ==> Ended(ids, stopped) == Ended(ids[1..], stopped)
  {
    assert ids == [ids[0]] + ids[1..];
  }

  /** The registry without the ended processes and their names. */
  function Cleaned(s: State, t: Tid, ended: set<Id>): State {
    State(s.processes - ended, s.reserved - KeysOf(s.processes, ended), s.used, s.threads[t := Idle])
  }

  lemma CleanedNext(s: State, next: State, t: Tid, ids: seq<Id>, stopped: set<Id>)
    requires ids != [] && Distinct(ids)
    requires next.threads[t := Idle] == s.threads[t := Idle] && next.used == s.used
    requires ids[0] in stopped && ids[0] in s.processes ==>
               next.processes == s.processes - {ids[0]} && next.reserved == s.reserved - {s.processes[ids[0]]}
    requires !(ids[0] in stopped && ids[0] in s.processes) ==>
               next.processes == s.processes && next.reserved == s.reserved
    ensures Cleaned(next, t, Ended(ids[1..], stopped)) == Cleaned(s, t, Ended(ids, stopped))
  {
    EndedNext(s.processes, ids, stopped);
  }

  lemma CleansNext(
    s: State, next: State, t: Tid, ids: seq<Id>, stopped: set<Id>, path: seq<State>, rest: seq<seq<State>>, s': State)
    requires ids != [] && Tries(path, t, ids[0], ids[0] in s.processes, ids[0] in stopped)
    requires path[0] == s && path[|path| - 1] == next
    requires CleansAll(next, t, ids[1..], stopped, rest, s')
    ensures CleansAll(s, t, ids, stopped, [path] + rest, s')
  {
    assert ([path] + rest)[1..] == rest;
  }

  lemma {:induction false} CleanRest(s: State, t: Tid, ids: seq<Id>, stopped: set<Id>)
    returns (legs: seq<seq<State>>)
    requires t in s.threads && s.threads[t] == Continue(ThenStops(ids)) && Distinct(ids)
    ensures CleansAll(s, t, ids, stopped, legs, Cleaned(s, t, Ended(ids, stopped)))
    decreases |ids|
  {
    if ids == [] {
      legs := [];
      assert s.threads == s.threads[t := Idle];
    } else {
      var path, next := TryOne(s, t, ids, ids[0] in stopped);
      assert next.threads[t := Idle] == s.threads[t := Idle];
      CleanedNext(s, next, t, ids, stopped);
      legs := CleanRest(next, t, ids[1..], stopped);
      CleansNext(s, next, t, ids, stopped, path, legs, Cleaned(s, t, Ended(ids, stopped)));
      legs := [path] + legs;
    }
  }

  lemma ListsProcesses(s: State, t: Tid, ids: seq<Id>) returns (a: State, b: State)
    requires t in s.threads && s.threads[t] == Idle
    ensures Step(s, a, t, BeginClean) && Step(a, b, t, Snapshot(ids))
    ensures b == Goto(s, t, Continue(ThenStops(ids)))
  {
    a := Goto(s, t, CleanSnapshot);
    b := Goto(a, t, Continue(ThenStops(ids)));
    assert b.threads == s.threads[t := Continue(ThenStops(ids))];
  }

  /** A clean tries every process it has listed: one that is gone or will not stop keeps it from none of the others. */
  lemma CleanAlone(s: State, t: Tid, ids: seq<Id>, stopped: set<Id>)
    returns (a: State, b: State, legs: seq<seq<State>>)
    requires t in s.threads && s.threads[t] == Idle && Distinct(ids)
    ensures Step(s, a, t, BeginClean) && Step(a, b, t, Snapshot(ids))
    ensures CleansAll(b, t, ids, stopped, legs, Cleaned(s, t, Ended(ids, stopped)))
  {
    a, b := ListsProcesses(s, t, ids);
    legs := CleanRest(b, t, ids, stopped);
    assert b.threads[t := Idle] == s.threads[t := Idle];
  }

  lemma PassesDead(s: State, t: Tid, key: Key, id: Id) returns (a: State, b: State)
    requires t in s.threads && s.threads[t] == StartRemove(key, id)
    ensures Step(s, a, t, MapRemove) && if id in s.processes then Step(a, b, t, Release) else a == b
    ensures t in b.threads && b.threads[t] == StartReserve(key)
    ensures id in s.processes ==> b.reserved == s.reserved - {s.processes[id]}
  {
    if id in s.processes {
      a, b := UnregisterDead(s, t, key, id);
    } else {
      a := Goto(s, t, StartReserve(key));
      b := a;
    }
  }

  lemma CanReserve(s: State, t: Tid, key: Key) returns (s': State)
    requires t in s.threads && s.threads[t] == StartReserve(key)
    ensures Step(s, s', t, Reserve) && (key !in s.reserved ==> Owns(s', InFlight(t), key))
  {
    s' := Exec(s, t, Reserve).value;
  }

  lemma DeadSeen(s: State, s': State, t: Tid, key: Key, id: Id)
    requires Step(s, s', t, Dead(id)) && s.threads[t] == StartCheck(key, id)
    ensures s'.threads[t] == StartRemove(key, id)
  {
  }

  /**
   Whatever others have done since, a start that has seen a dead process under
   its key can go on to reserve, and gets the name if the process still had it.
   */
  lemma DeadCanReserve(seen: State, gone: State, s: State, t: Tid, key: Key, id: Id)
    returns (a: State, b: State, c: State)
    requires Step(seen, gone, t, Dead(id)) && seen.threads[t] == StartCheck(key, id)
    requires t in s.threads && s.threads[t] == gone.threads[t]
    ensures Step(s, a, t, MapRemove) && Step(b, c, t, Reserve)
    ensures if id in s.processes then Step(a, b, t, Release) else a == b
    ensures id in s.processes && s.processes[id] == key ==> Owns(c, InFlight(t), key)
  {
    DeadSeen(seen, gone, t, key, id);
    a, b := PassesDead(s, t, key, id);
    c := CanReserve(b, t, key);
  }
}
