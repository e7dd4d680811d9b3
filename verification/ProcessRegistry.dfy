/**
 The process registry: two independent concurrent maps, the guard that
 releases a reserved name, and the lookups, which walk a map in an order
 nobody controls.
 */
module ProcessRegistry {
  import opened Sequences

  datatype Key = Key(project: string, name: string)

  type Id = string

  datatype Proxy = Proxy(id: Id, key: Key)

  type Processes = map<Id, Proxy>

  ghost predicate WellFormed(m: Processes) {
    forall id :: id in m ==> m[id].id == id
  }

  class Registry {
    var processes: Processes
    var reservedNames: set<Key>

    constructor ()
      ensures processes == map[] && reservedNames == {}
    {
      processes, reservedNames := map[], {};
    }

    method AddProcess(proxy: Proxy)
      requires WellFormed(processes)
      modifies this`processes
      ensures processes == old(processes)[proxy.id := proxy] && WellFormed(processes)
    {
      processes := processes[proxy.id := proxy];
    }

    /** Unregisters, and releases the name exactly when something was unregistered. */
    method RemoveProcess(id: Id) returns (removed: Option<Proxy>)
      requires WellFormed(processes)
      modifies this`processes, this`reservedNames
      ensures WellFormed(processes)
      ensures removed == if id in old(processes) then Some(old(processes)[id]) else None
      ensures processes == old(processes) - {id}
      ensures reservedNames == if removed.Some? then old(reservedNames) - {removed.value.key} else old(reservedNames)
    {
      if id in processes {
        removed := Some(processes[id]);
        processes := processes - {id};
        ReleaseName(removed.value.key);
      } else {
        removed := None;
      }
    }

    method TryReserveName(key: Key) returns (reserved: bool)
      modifies this`reservedNames
      ensures reserved == (key !in old(reservedNames))
      ensures reservedNames == old(reservedNames) + {key}
    {
      reserved := key !in reservedNames;
      if reserved {
        reservedNames := reservedNames + {key};
      }
    }

    method ReleaseName(key: Key)
      modifies this`reservedNames
      ensures reservedNames == old(reservedNames) - {key}
    {
      reservedNames := reservedNames - {key};
    }
  }

  /** The guard of a reserved name: dropped without `Keep`, it releases the name. */
  class NameReservation {
    const registry: Registry
    const key: Key
    var releaseOnDrop: bool

    constructor (registry: Registry, key: Key)
      ensures this.registry == registry && this.key == key && releaseOnDrop
    {
      this.registry, this.key, releaseOnDrop := registry, key, true;
    }

    method Keep()
      modifies this`releaseOnDrop
      ensures !releaseOnDrop
    {
      releaseOnDrop := false;
    }

    method Drop()
      modifies registry`reservedNames
      ensures registry.reservedNames
           == old(registry.reservedNames) - (if releaseOnDrop then {key} else {})
    {
      if releaseOnDrop {
        registry.ReleaseName(key);
      }
    }
  }

  // ----- Lookups

  /** A walk over the map: every entry, each once, in any order. */
  ghost predicate Enumerates(order: seq<Proxy>, m: Processes) {
    && (forall p :: p in order ==> p.id in m && m[p.id] == p)
    && (forall id :: id in m ==> m[id] in order)
    && (forall i, j :: 0 <= i < j < |order| ==> order[i] != order[j])
  }

  function Find(order: seq<Proxy>, wanted: Proxy -> bool): (r: Option<Proxy>)
    ensures r.Some? ==> r.value in order && wanted(r.value)
    ensures r.None? ==> forall p :: p in order ==> !wanted(p)
  {
    if order == [] then None
    else if wanted(order[0]) then Some(order[0])
    else Find(order[1..], wanted)
  }

  function ByNameWithProject(order: seq<Proxy>, name: string, project: string): Option<Proxy> {
    Find(order, (p: Proxy) => p.key.name == name && p.key.project == project)
  }

  function ByName(order: seq<Proxy>, name: string): Option<Proxy> {
    Find(order, (p: Proxy) => p.key.name == name)
  }

  function ById(m: Processes, id: Id): Option<Proxy> {
    if id in m then Some(m[id]) else None
  }

  function OrElse(a: Option<Proxy>, b: Option<Proxy>): Option<Proxy> {
    if a.Some? then a else b
  }

  function ByNameOrId(isUuid: string -> bool, order: seq<Proxy>, m: Processes, nameOrId: string): Option<Proxy> {
    if isUuid(nameOrId) then OrElse(ById(m, nameOrId), ByName(order, nameOrId))
    else OrElse(ByName(order, nameOrId), ById(m, nameOrId))
  }

  function ByNameOrIdWithProject(
    isUuid: string -> bool, order: seq<Proxy>, m: Processes, nameOrId: string, project: Option<string>): Option<Proxy>
  {
    if project.None? then ByNameOrId(isUuid, order, m, nameOrId)
    else
      var id := ById(m, nameOrId);
      var idLookup := if id.Some? && id.value.key.project == project.value then id else None;
      var nameLookup := ByNameWithProject(order, nameOrId, project.value);
      if isUuid(nameOrId) then OrElse(idLookup, nameLookup) else OrElse(nameLookup, idLookup)
  }

  /** The ownership protocol's guarantee: at most one registered process for a key. */
  ghost predicate UniqueKeys(m: Processes) {
    forall a, b :: a in m && b in m && m[a].key == m[b].key ==> a == b
  }

  /** Where at most one entry is wanted, every walk finds the same. */
  lemma WalksAgree(m: Processes, a: seq<Proxy>, b: seq<Proxy>, wanted: Proxy -> bool)
    requires Enumerates(a, m) && Enumerates(b, m)
    requires forall p, q :: p in a && q in a && wanted(p) && wanted(q) ==> p == q
    ensures Find(a, wanted) == Find(b, wanted)
  {
    assert forall p :: p in a <==> p in b by {
      forall p ensures p in a <==> p in b {
        if p in a {
          assert m[p.id] in b;
        }
        if p in b {
          assert m[p.id] in a;
        }
      }
    }
  }

  /** With a project, the answer does not depend on the walk. */
  lemma ProjectLookupDeterministic(
    isUuid: string -> bool, m: Processes, a: seq<Proxy>, b: seq<Proxy>, nameOrId: string, project: string)
    requires UniqueKeys(m) && Enumerates(a, m) && Enumerates(b, m)
    ensures ByNameOrIdWithProject(isUuid, a, m, nameOrId, Some(project))
         == ByNameOrIdWithProject(isUuid, b, m, nameOrId, Some(project))
  {
    var wanted := (p: Proxy) => p.key.name == nameOrId && p.key.project == project;
    forall p, q | p in a && q in a && wanted(p) && wanted(q) ensures p == q {
      assert m[p.id].key == m[q.id].key;
    }
    WalksAgree(m, a, b, wanted);
    assert ByNameWithProject(a, nameOrId, project) == ByNameWithProject(b, nameOrId, project);
  }

  predicate Answers(p: Proxy, nameOrId: string, project: string) {
    p.key.project == project && (p.key.name == nameOrId || p.id == nameOrId)
  }

  /**
   With a project, the answer is a registered process of that project, and
   None only when nothing matches. A name wins over an id, unless the text is a UUID.
   */
  lemma ProjectLookupSound(
    isUuid: string -> bool, m: Processes, order: seq<Proxy>, nameOrId: string, project: string)
    requires WellFormed(m) && Enumerates(order, m)
    ensures var r := ByNameOrIdWithProject(isUuid, order, m, nameOrId, Some(project));
            && (r.Some? ==> r.value in order && Answers(r.value, nameOrId, project))
            && (r.None? <==> forall p :: p in order ==> !Answers(p, nameOrId, project))
            && (!isUuid(nameOrId) && (exists p :: p in order && p.key == Key(project, nameOrId)) ==>
                  r.Some? && r.value.key.name == nameOrId)
            && (isUuid(nameOrId) && (exists p :: p in order && p.id == nameOrId && p.key.project == project) ==>
                  r.Some? && r.value.id == nameOrId)
  {
    if nameOrId in m {
      assert m[nameOrId] in order;
    }
    assert forall p :: p in order && p.id == nameOrId ==> nameOrId in m && m[nameOrId] == p;
  }

  /**
   Without a project, the answer is a registered process of that name or id,
   and None only when there is none. A registered UUID is answered by its own
   process; otherwise a name wins.
   */
  lemma LookupSound(isUuid: string -> bool, m: Processes, order: seq<Proxy>, nameOrId: string)
    requires WellFormed(m) && Enumerates(order, m)
    ensures var r := ByNameOrId(isUuid, order, m, nameOrId);
            && (r.Some? ==> r.value in order && (r.value.key.name == nameOrId || r.value.id == nameOrId))
            && (r.None? <==> forall p :: p in order ==> p.key.name != nameOrId && p.id != nameOrId)
            && (isUuid(nameOrId) && nameOrId in m ==> r == Some(m[nameOrId]))
            && (!(isUuid(nameOrId) && nameOrId in m) && (exists p :: p in order && p.key.name == nameOrId) ==>
                  r.Some? && r.value.key.name == nameOrId)
  {
    if nameOrId in m {
      assert m[nameOrId] in order;
    }
    assert forall p :: p in order && p.id == nameOrId ==> nameOrId in m && m[nameOrId] == p;
  }

  /** Without a project, every walk gives the same answer. */
  ghost predicate NameLookupDeterministic(isUuid: string -> bool, m: Processes, nameOrId: string) {
    forall a, b :: Enumerates(a, m) && Enumerates(b, m) ==>
      ByNameOrId(isUuid, a, m, nameOrId) == ByNameOrId(isUuid, b, m, nameOrId)
  }

  ghost predicate AtMostOneNamed(m: Processes, name: string) {
    forall a, b :: a in m && b in m && m[a].key.name == name && m[b].key.name == name ==> a == b
  }

  /** Some walk visits a given entry first. */
  lemma {:induction false} WalkStartingWith(m: Processes, id: Id) returns (order: seq<Proxy>)
    requires WellFormed(m) && id in m
    ensures Enumerates(order, m) && order != [] && order[0] == m[id]
    decreases |m|
  {
    var rest := m - {id};
    if rest == map[] {
      order := [m[id]];
      assert forall x :: x in m ==> x == id || x in rest;
    } else {
      var next :| next in rest;
      var tail := WalkStartingWith(rest, next);
      order := [m[id]] + tail;
      forall x | x in m ensures m[x] in order {
        if x != id {
          assert x in rest && rest[x] in tail;
        }
      }
      assert m[id] !in tail;
    }
  }

  /** Without a project the answer is independent of the walk exactly when an id decides it or the name is unique. */
  lemma NameLookupExact(isUuid: string -> bool, m: Processes, nameOrId: string)
    requires WellFormed(m)
    ensures NameLookupDeterministic(isUuid, m, nameOrId)
       <==> (isUuid(nameOrId) && nameOrId in m) || AtMostOneNamed(m, nameOrId)
  {
    if isUuid(nameOrId) && nameOrId in m {
    } else if AtMostOneNamed(m, nameOrId) {
      forall a, b | Enumerates(a, m) && Enumerates(b, m)
        ensures ByNameOrId(isUuid, a, m, nameOrId) == ByNameOrId(isUuid, b, m, nameOrId)
      {
        WalksAgree(m, a, b, (p: Proxy) => p.key.name == nameOrId);
      }
    } else {
      var x, y :| x in m && y in m && m[x].key.name == nameOrId && m[y].key.name == nameOrId && x != y;
      var a := WalkStartingWith(m, x);
      var b := WalkStartingWith(m, y);
      assert ByName(a, nameOrId) == Some(m[x]) && ByName(b, nameOrId) == Some(m[y]);
    }
  }

  // ----- Starting a process while nothing else is under way

  function KeysOf(m: Processes): (keys: set<Key>)
    ensures forall k :: k in keys <==> exists id :: id in m && m[id].key == k
  {
    set id | id in m :: m[id].key
  }

  /** One entry for a key, and the reserved names are those of the entries. */
  ghost predicate Quiet(processes: Processes, reserved: set<Key>) {
    WellFormed(processes) && UniqueKeys(processes) && reserved == KeysOf(processes)
  }

  lemma QuietWithout(processes: Processes, reserved: set<Key>, id: Id)
    requires Quiet(processes, reserved) && id in processes
    ensures Quiet(processes - {id}, reserved - {processes[id].key})
    ensures forall x :: x in processes - {id} ==> processes[x].key != processes[id].key
  {
    var rest, key := processes - {id}, processes[id].key;
    forall k ensures k in reserved - {key} <==> k in KeysOf(rest) {
      if k in reserved - {key} {
        var x :| x in processes && processes[x].key == k;
        assert x in rest && rest[x].key == k;
      }
    }
  }

  lemma QuietWith(processes: Processes, reserved: set<Key>, proxy: Proxy)
    requires Quiet(processes, reserved) && proxy.id !in processes && proxy.key !in reserved
    ensures Quiet(processes[proxy.id := proxy], reserved + {proxy.key})
  {
    var more := processes[proxy.id := proxy];
    forall k ensures k in reserved + {proxy.key} <==> k in KeysOf(more) {
      if k in reserved {
        var x :| x in processes && processes[x].key == k;
        assert x in more && more[x].key == k;
      }
      if k == proxy.key {
        assert proxy.id in more && more[proxy.id].key == k;
      }
    }
  }

  datatype StartResult = Started | AlreadyExists | PatternRejected | NotLaunched

  ghost predicate LiveUnder(m: Processes, key: Key, isDead: Proxy -> bool) {
    exists id :: id in m && m[id].key == key && !isDead(m[id])
  }

  /** The entries that a start under `key` leaves: all but a dead one of that key. */
  function Reusable(m: Processes, key: Key, isDead: Proxy -> bool): Processes {
    map id | id in m && !(m[id].key == key && isDead(m[id])) :: m[id]
  }

  /**
   The registry part of a start. A live entry of the key refuses it; a dead one
   makes room; and a pattern that does not parse or a launch that fails drops
   the guard, so that the reserved names are again those of the entries.
   */
  method StartProcess(
    registry: Registry, order: seq<Proxy>, proxy: Proxy, isDead: Proxy -> bool, patternOk: bool, launchOk: bool)
    returns (result: StartResult)
    requires Quiet(registry.processes, registry.reservedNames) && Enumerates(order, registry.processes)
    requires proxy.id !in registry.processes
    modifies registry`processes, registry`reservedNames
    ensures Quiet(registry.processes, registry.reservedNames)
    ensures result == AlreadyExists <==> LiveUnder(old(registry.processes), proxy.key, isDead)
    ensures result == AlreadyExists ==> registry.processes == old(registry.processes)
    ensures result == PatternRejected || result == NotLaunched ==>
              registry.processes == Reusable(old(registry.processes), proxy.key, isDead)
    ensures result == Started ==>
              && patternOk && launchOk
              && registry.processes == Reusable(old(registry.processes), proxy.key, isDead)[proxy.id := proxy]
    ensures result == PatternRejected ==> !patternOk
    ensures result == NotLaunched ==> patternOk && !launchOk
  {
    var room := MakeRoom(registry, order, proxy.key, isDead);
    if !room {
      return AlreadyExists;
    }
    var reserved := registry.TryReserveName(proxy.key);
    if !reserved {
      return AlreadyExists;
    }
    var reservation := new NameReservation(registry, proxy.key);
    if !patternOk || !launchOk {
      reservation.Drop();
      return if patternOk then NotLaunched else PatternRejected;
    }
    QuietWith(registry.processes, registry.reservedNames - {proxy.key}, proxy);
    registry.AddProcess(proxy);
    reservation.Keep();
    reservation.Drop();
    result := Started;
  }

  /** A dead entry of the key is removed; a live one is in the way. */
  method MakeRoom(registry: Registry, order: seq<Proxy>, key: Key, isDead: Proxy -> bool) returns (room: bool)
    requires Quiet(registry.processes, registry.reservedNames) && Enumerates(order, registry.processes)
    modifies registry`processes, registry`reservedNames
    ensures Quiet(registry.processes, registry.reservedNames)
    ensures room <==> !LiveUnder(old(registry.processes), key, isDead)
    ensures registry.processes
         == if room then Reusable(old(registry.processes), key, isDead) else old(registry.processes)
    ensures room ==> key !in registry.reservedNames
  {
    var existing := ByNameWithProject(order, key.name, key.project);
    RoomMade(registry.processes, order, key, isDead);
    if existing.None? {
      return true;
    }
    room := isDead(existing.value);
    if room {
      QuietWithout(registry.processes, registry.reservedNames, existing.value.id);
      var _ := registry.RemoveProcess(existing.value.id);
    }
  }

  /** What the lookup by key finds, and what is left without it. */
  lemma RoomMade(m: Processes, order: seq<Proxy>, key: Key, isDead: Proxy -> bool)
    requires WellFormed(m) && UniqueKeys(m) && Enumerates(order, m)
    ensures var existing := ByNameWithProject(order, key.name, key.project);
            && (existing.Some? ==>
                  && existing.value.id in m && m[existing.value.id] == existing.value && existing.value.key == key
                  && (LiveUnder(m, key, isDead) <==> !isDead(existing.value))
                  && (isDead(existing.value) ==> Reusable(m, key, isDead) == m - {existing.value.id}))
            && (existing.None? ==>
                  !LiveUnder(m, key, isDead) && Reusable(m, key, isDead) == m && key !in KeysOf(m))
  {
    var existing := ByNameWithProject(order, key.name, key.project);
    if existing.Some? {
      assert m[existing.value.id].key == key;
    } else {
      forall id | id in m ensures m[id].key != key {
        assert m[id] in order;
      }
    }
  }
}
