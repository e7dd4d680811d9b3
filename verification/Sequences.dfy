/** Sequence vocabulary shared by the log modules. */
module Sequences {

  datatype Option<+T> = None | Some(value: T)

  function Min(a: int, b: int): int { if a < b then a else b }

  function Max(a: int, b: int): int { if a < b then b else a }

  lemma ConcatAssoc<T>(a: seq<T>, b: seq<T>, c: seq<T>)
    ensures (a + b) + c == a + (b + c)
  {
  }

  function Flatten<T>(parts: seq<seq<T>>): seq<T> {
    if parts == [] then [] else parts[0] + Flatten(parts[1..])
  }

  lemma {:induction false} FlattenAppend<T>(a: seq<seq<T>>, b: seq<seq<T>>)
    ensures Flatten(a + b) == Flatten(a) + Flatten(b)
  {
    if a == [] {
      assert a + b == b;
    } else {
      assert (a + b)[0] == a[0] && (a + b)[1..] == a[1..] + b;
      FlattenAppend(a[1..], b);
      ConcatAssoc(a[0], Flatten(a[1..]), Flatten(b));
    }
  }

  lemma FlattenSnoc<T>(a: seq<seq<T>>, x: seq<T>)
    ensures Flatten(a + [x]) == Flatten(a) + x
  {
    FlattenAppend(a, [x]);
    assert Flatten([x]) == x + Flatten([]);
  }

  function Map<A, B>(f: A -> B, s: seq<A>): (r: seq<B>)
    ensures |r| == |s|
    ensures forall i :: 0 <= i < |s| ==> r[i] == f(s[i])
  {
    seq(|s|, i requires 0 <= i < |s| => f(s[i]))
  }

  lemma MapAppend<A, B>(f: A -> B, a: seq<A>, b: seq<A>)
    ensures Map(f, a + b) == Map(f, a) + Map(f, b)
  {
  }

  lemma FlattenMapSnoc<A, B>(f: A -> seq<B>, s: seq<A>, x: A)
    ensures Flatten(Map(f, s + [x])) == Flatten(Map(f, s)) + f(x)
  {
    MapAppend(f, s, [x]);
    FlattenSnoc(Map(f, s), f(x));
    assert Map(f, [x]) == [f(x)];
  }

  function Filter<A>(keep: A -> bool, s: seq<A>): seq<A> {
    if s == [] then []
    else (if keep(s[0]) then [s[0]] else []) + Filter(keep, s[1..])
  }

  lemma {:induction false} FilterAppend<A>(keep: A -> bool, a: seq<A>, b: seq<A>)
    ensures Filter(keep, a + b) == Filter(keep, a) + Filter(keep, b)
  {
    if a == [] {
      assert a + b == b;
    } else {
      var first := if keep(a[0]) then [a[0]] else [];
      assert (a + b)[0] == a[0] && (a + b)[1..] == a[1..] + b;
      FilterAppend(keep, a[1..], b);
      ConcatAssoc(first, Filter(keep, a[1..]), Filter(keep, b));
    }
  }

  /** What `pick` makes of the elements, leaving out those it makes nothing of. */
  function Collect<A, B>(pick: A -> Option<B>, s: seq<A>): seq<B> {
    if s == [] then [] else AsSeq(pick(s[0])) + Collect(pick, s[1..])
  }

  function AsSeq<A>(a: Option<A>): seq<A> {
    if a.Some? then [a.value] else []
  }

  lemma {:induction false} CollectAppend<A, B>(pick: A -> Option<B>, a: seq<A>, b: seq<A>)
    ensures Collect(pick, a + b) == Collect(pick, a) + Collect(pick, b)
    decreases |a|
  {
    if a == [] {
      assert a + b == b;
    } else {
      assert (a + b)[0] == a[0] && (a + b)[1..] == a[1..] + b;
      CollectAppend(pick, a[1..], b);
      ConcatAssoc(AsSeq(pick(a[0])), Collect(pick, a[1..]), Collect(pick, b));
    }
  }

  lemma CollectOne<A, B>(pick: A -> Option<B>, x: A)
    ensures Collect(pick, [x]) == AsSeq(pick(x))
  {
    assert Collect(pick, [x]) == AsSeq(pick(x)) + Collect(pick, [x][1..]);
  }

  lemma CollectSnoc<A, B>(pick: A -> Option<B>, s: seq<A>, x: A)
    ensures Collect(pick, s + [x]) == Collect(pick, s) + AsSeq(pick(x))
  {
    CollectAppend(pick, s, [x]);
    CollectOne(pick, x);
  }

  lemma CollectNext<A, B>(pick: A -> Option<B>, s: seq<A>, i: nat)
    requires i < |s|
    ensures Collect(pick, s[..i + 1]) == Collect(pick, s[..i]) + AsSeq(pick(s[i]))
  {
    assert s[..i + 1] == s[..i] + [s[i]];
    CollectSnoc(pick, s[..i], s[i]);
  }

  predicate Increasing(ps: seq<nat>) {
    forall j, k :: 0 <= j < k < |ps| ==> ps[j] < ps[k]
  }

  /** `places` are all the places where `keep` holds, in order. */
  ghost predicate ChosenAt<A(!new)>(keep: A -> bool, s: seq<A>, places: seq<nat>) {
    && Increasing(places)
    && forall i: nat :: i in places <==> i < |s| && keep(s[i])
  }

  lemma ChosenNext<A(!new)>(keep: A -> bool, s: seq<A>, x: A, places: seq<nat>)
    requires ChosenAt(keep, s, places)
    ensures keep(x) ==> ChosenAt(keep, s + [x], places + [|s|])
    ensures !keep(x) ==> ChosenAt(keep, s + [x], places)
  {
    assert forall k :: 0 <= k < |places| ==> places[k] in places;
    assert forall i: nat :: i in places + [|s|] <==> i in places || i == |s|;
  }

  /** `out` is what `pick` makes of the elements at `places`, and the others it makes nothing of. */
  ghost predicate PickedAt<A(!new), B(!new)>(pick: A -> Option<B>, s: seq<A>, places: seq<nat>, out: seq<B>) {
    && Increasing(places)
    && (forall i: nat :: i in places <==> i < |s| && pick(s[i]).Some?)
    && |out| == |places|
    && forall k :: 0 <= k < |places| ==> places[k] < |s| && pick(s[places[k]]) == Some(out[k])
  }

  lemma PickedNext<A(!new), B(!new)>(pick: A -> Option<B>, s: seq<A>, x: A, places: seq<nat>, out: seq<B>)
    requires PickedAt(pick, s, places, out)
    ensures pick(x).Some? ==> PickedAt(pick, s + [x], places + [|s|], out + [pick(x).value])
    ensures pick(x).None? ==> PickedAt(pick, s + [x], places, out)
  {
    assert forall k :: 0 <= k < |places| ==> places[k] in places;
    assert forall i: nat :: i in places + [|s|] <==> i in places || i == |s|;
  }

  /** What is picked are the picked elements, every one of them, in their order. */
  lemma {:induction false} CollectExact<A(!new), B(!new)>(pick: A -> Option<B>, s: seq<A>) returns (places: seq<nat>)
    ensures PickedAt(pick, s, places, Collect(pick, s))
    decreases |s|
  {
    if s == [] {
      places := [];
    } else {
      var front, x := s[..|s| - 1], s[|s| - 1];
      places := CollectExact(pick, front);
      places := PickOne(pick, front, x, places);
      assert s == front + [x];
    }
  }

  lemma PickOne<A(!new), B(!new)>(pick: A -> Option<B>, s: seq<A>, x: A, front: seq<nat>) returns (places: seq<nat>)
    requires PickedAt(pick, s, front, Collect(pick, s))
    ensures PickedAt(pick, s + [x], places, Collect(pick, s + [x]))
  {
    PickedNext(pick, s, x, front, Collect(pick, s));
    CollectSnoc(pick, s, x);
    if pick(x).Some? {
      places := front + [|s|];
    } else {
      places := front;
      assert Collect(pick, s) + [] == Collect(pick, s);
    }
  }

  /** The elements among the first `n` that `keep` holds of, in order. */
  function FilterTo<A>(keep: A -> bool, s: seq<A>, n: nat): seq<A>
    requires n <= |s|
  {
    if n == 0 then [] else FilterTo(keep, s, n - 1) + (if keep(s[n - 1]) then [s[n - 1]] else [])
  }

  /** What every step keeps holds from where it first holds. */
  lemma {:induction false} KeptAlong(holds: seq<bool>, i: nat, j: nat)
    requires i <= j < |holds| && holds[i]
    requires forall k, l :: 0 <= k && l == k + 1 < |holds| && holds[k] ==> holds[l]
    ensures holds[j]
    decreases j
  {
    if i < j {
      KeptAlong(holds, i, j - 1);
    }
  }

  /** Removing, or stepping over, the element between a front and a back part. */
  lemma AtSeam<T>(front: seq<T>, back: seq<T>)
    requires back != []
    ensures (front + back)[|front|] == back[0]
    ensures (front + back)[..|front|] + (front + back)[|front| + 1..] == front + back[1..]
    ensures front + back == (front + [back[0]]) + back[1..]
  {
  }
}
