/**
 The process tree below a pid: a worklist that asks for the children of each
 pid it knows. Nothing is assumed about the answers; they may repeat pids, form
 cycles or lead back to the root.
 */
module ProcessTree {
  import opened Integers

  /** A walk from parent to child. */
  ghost predicate IsPath(children: u32 -> seq<u32>, path: seq<u32>) {
    && path != []
    && forall i, j :: 0 <= i && j == i + 1 < |path| ==> path[j] in children(path[i])
  }

  ghost predicate Reaches(children: u32 -> seq<u32>, from: u32, to: u32) {
    exists path: seq<u32> :: IsPath(children, path) && path[0] == from && path[|path| - 1] == to
  }

  predicate Distinct(s: seq<u32>) {
    forall i, j :: 0 <= i < j < |s| ==> s[i] != s[j]
  }

  lemma ReachesItself(children: u32 -> seq<u32>, pid: u32)
    ensures Reaches(children, pid, pid)
  {
    assert IsPath(children, [pid]);
  }

  lemma ReachesFurther(children: u32 -> seq<u32>, root: u32, parent: u32, child: u32)
    requires Reaches(children, root, parent) && child in children(parent)
    ensures Reaches(children, root, child)
  {
    var path: seq<u32> :| IsPath(children, path) && path[0] == root && path[|path| - 1] == parent;
    var longer := path + [child];
    assert IsPath(children, longer);
  }

  /** A set that has the root and the children of all its members has everything reachable. */
  lemma {:induction false} ClosedHasPath(children: u32 -> seq<u32>, pids: seq<u32>, path: seq<u32>, n: nat)
    requires IsPath(children, path) && n < |path| && path[0] in pids
    requires forall p, c :: p in pids && c in children(p) ==> c in pids
    ensures path[n] in pids
    decreases n
  {
    if n > 0 {
      ClosedHasPath(children, pids, path, n - 1);
    }
  }

  function AllPids(n: nat): (r: set<u32>)
    requires n <= U32_RANGE
    ensures forall p: u32 :: p in r <==> p < n
    ensures |r| == n
    decreases n
  {
    if n == 0 then {} else AllPids(n - 1) + {n - 1}
  }

  lemma {:induction false} DistinctWithin(s: seq<u32>, universe: set<u32>)
    requires Distinct(s) && forall p :: p in s ==> p in universe
    ensures |s| <= |universe|
    decreases |s|
  {
    if s != [] {
      var last := |s| - 1;
      assert s[last] in universe;
      DistinctWithin(s[..last], universe - {s[last]});
    }
  }

  /** There are only so many pids. */
  lemma DistinctBounded(s: seq<u32>)
    requires Distinct(s)
    ensures |s| <= U32_RANGE
  {
    DistinctWithin(s, AllPids(U32_RANGE));
  }

  /** The inner loop: the children not yet known are appended, in their order. */
  method AddChildren(ghost children: u32 -> seq<u32>, ghost root: u32, pids0: seq<u32>, parent: u32, answer: seq<u32>)
    returns (pids: seq<u32>)
    requires answer == children(parent) && Reaches(children, root, parent)
    requires Distinct(pids0) && forall p :: p in pids0 ==> Reaches(children, root, p)
    ensures pids0 <= pids && Distinct(pids)
    ensures forall p :: p in pids ==> Reaches(children, root, p)
    ensures forall c :: c in answer ==> c in pids
  {
    pids := pids0;
    for i := 0 to |answer|
      invariant pids0 <= pids && Distinct(pids)
      invariant forall p :: p in pids ==> Reaches(children, root, p)
      invariant forall k :: 0 <= k < i ==> answer[k] in pids
    {
      if answer[i] !in pids {
        ReachesFurther(children, root, parent, answer[i]);
        pids := pids + [answer[i]];
      }
    }
  }

  /** The root first, nothing twice, and exactly the pids reachable from the root; and it always ends. */
  method GetProcessTree(children: u32 -> seq<u32>, pid: u32) returns (pids: seq<u32>)
    ensures pids != [] && pids[0] == pid
    ensures Distinct(pids)
    ensures forall p :: p in pids <==> Reaches(children, pid, p)
  {
    pids := [pid];
    ReachesItself(children, pid);
    var nextIndex := 0;
    while nextIndex < |pids|
      invariant nextIndex <= |pids|
      invariant pids != [] && pids[0] == pid && Distinct(pids)
      invariant forall p :: p in pids ==> Reaches(children, pid, p)
      invariant forall k :: 0 <= k < nextIndex ==> forall c :: c in children(pids[k]) ==> c in pids
      decreases U32_RANGE - nextIndex
    {
      DistinctBounded(pids);
      var parent := pids[nextIndex];
      nextIndex := nextIndex + 1;
      pids := AddChildren(children, pid, pids, parent, children(parent));
    }
    AllReached(children, pid, pids);
  }

  lemma AllReached(children: u32 -> seq<u32>, root: u32, pids: seq<u32>)
    requires root in pids
    requires forall k :: 0 <= k < |pids| ==> forall c :: c in children(pids[k]) ==> c in pids
    ensures forall p :: Reaches(children, root, p) ==> p in pids
  {
    forall p | Reaches(children, root, p) ensures p in pids {
      var path: seq<u32> :| IsPath(children, path) && path[0] == root && path[|path| - 1] == p;
      ClosedHasPath(children, pids, path, |path| - 1);
    }
  }
}
