/**
 Splitting a byte stream at line feeds.

 This is the simple meaning that both ends of the log pipeline refine: the
 capture side (which cuts arbitrary chunks into lines) and the reading side
 (which cuts a log file into lines).
 */
module LineSplitting {
  import opened Sequences

  newtype byte = x: int | 0 <= x < 256

  type Bytes = seq<byte>

  const LF: byte := 10
  const CR: byte := 13

  /** No line feed anywhere in `s`. */
  predicate LfFree(s: Bytes) {
    forall i :: 0 <= i < |s| ==> s[i] != LF
  }

  /** The index of the first line feed, or the length when there is none. */
  function FirstLf(s: Bytes): (p: nat)
    ensures p <= |s|
    ensures forall i :: 0 <= i < p ==> s[i] != LF
    ensures p < |s| ==> s[p] == LF
  {
    if s == [] then 0
    else if s[0] == LF then 0
    else 1 + FirstLf(s[1..])
  }

  /** The lines of `s` that are terminated, each with its line feed. */
  function CompleteLines(s: Bytes): seq<Bytes>
    decreases |s|
  {
    var p := FirstLf(s);
    if p == |s| then [] else [s[..p + 1]] + CompleteLines(s[p + 1..])
  }

  /** What follows the last line feed of `s`. */
  function Remainder(s: Bytes): Bytes
    decreases |s|
  {
    var p := FirstLf(s);
    if p == |s| then s else Remainder(s[p + 1..])
  }

  /** A line feed at the end and nowhere else. */
  predicate IsLine(l: Bytes) {
    l != [] && l[|l| - 1] == LF && LfFree(l[..|l| - 1])
  }

  predicate AreLines(ls: seq<Bytes>) {
    forall i :: 0 <= i < |ls| ==> IsLine(ls[i])
  }

  lemma FirstLfOfLine(l: Bytes, tail: Bytes)
    requires IsLine(l)
    ensures FirstLf(l + tail) == |l| - 1
  {
    var s := l + tail;
    assert forall i :: 0 <= i < |l| - 1 ==> l[..|l| - 1][i] == s[i];
    assert s[|l| - 1] == LF;
  }

  lemma {:induction false} RemainderLfFree(s: Bytes)
    ensures LfFree(Remainder(s))
    decreases |s|
  {
    var p := FirstLf(s);
    if p < |s| {
      RemainderLfFree(s[p + 1..]);
    }
  }

  lemma {:induction false} CompleteLinesAreLines(s: Bytes)
    ensures AreLines(CompleteLines(s))
    decreases |s|
  {
    var p := FirstLf(s);
    if p < |s| {
      assert s[..p + 1][..p] == s[..p];
      CompleteLinesAreLines(s[p + 1..]);
    }
  }

  /** The first line and what is behind it. */
  lemma SplitUnfold(s: Bytes)
    requires FirstLf(s) < |s|
    ensures var l, t := s[..FirstLf(s) + 1], s[FirstLf(s) + 1..];
            && s == l + t && IsLine(l)
            && CompleteLines(s) == [l] + CompleteLines(t) && Remainder(s) == Remainder(t)
  {
    var p := FirstLf(s);
    assert s[..p + 1][..p] == s[..p];
  }

  lemma FlattenCons(l: Bytes, lines: seq<Bytes>)
    ensures Flatten([l] + lines) == l + Flatten(lines)
  {
    assert ([l] + lines)[1..] == lines;
  }

  /** Splitting loses nothing. */
  lemma {:induction false} SplitRejoins(s: Bytes)
    ensures Flatten(CompleteLines(s)) + Remainder(s) == s
    decreases |s|
  {
    var p := FirstLf(s);
    if p < |s| {
      var l, t := s[..p + 1], s[p + 1..];
      SplitUnfold(s);
      SplitRejoins(t);
      FlattenCons(l, CompleteLines(t));
      ConcatAssoc(l, Flatten(CompleteLines(t)), Remainder(t));
    } else {
      assert Flatten([]) + s == s;
    }
  }

  lemma SplitFirst(l: Bytes, tail: Bytes)
    requires IsLine(l)
    ensures CompleteLines(l + tail) == [l] + CompleteLines(tail)
    ensures Remainder(l + tail) == Remainder(tail)
  {
    var s := l + tail;
    FirstLfOfLine(l, tail);
    assert s[..|l|] == l && s[|l|..] == tail;
  }

  lemma SplitLfFree(r: Bytes)
    requires LfFree(r)
    ensures CompleteLines(r) == []
    ensures Remainder(r) == r
  {
  }

  /** The splitting is the only one: any lines and unterminated rest that join to a stream are its own. */
  lemma {:induction false} SplitUnique(ls: seq<Bytes>, rest: Bytes)
    requires AreLines(ls) && LfFree(rest)
    ensures CompleteLines(Flatten(ls) + rest) == ls
    ensures Remainder(Flatten(ls) + rest) == rest
  {
    if ls == [] {
      assert Flatten(ls) + rest == rest;
      SplitLfFree(rest);
    } else {
      var tail := Flatten(ls[1..]) + rest;
      assert Flatten(ls) + rest == ls[0] + tail;
      SplitFirst(ls[0], tail);
      SplitUnique(ls[1..], rest);
    }
  }

  /** Splitting may be done piecewise, carrying only the unterminated rest over. */
  lemma {:induction false} SplitAppend(a: Bytes, b: Bytes)
    ensures CompleteLines(a + b) == CompleteLines(a) + CompleteLines(Remainder(a) + b)
    ensures Remainder(a + b) == Remainder(Remainder(a) + b)
    decreases |a|
  {
    var p := FirstLf(a);
    if p < |a| {
      var l, t := a[..p + 1], a[p + 1..];
      SplitUnfold(a);
      ConcatAssoc(l, t, b);
      SplitFirst(l, t + b);
      SplitAppend(t, b);
      ConcatAssoc([l], CompleteLines(t), CompleteLines(Remainder(t) + b));
    } else {
      assert [] + CompleteLines(a + b) == CompleteLines(a + b);
    }
  }

  /** The lines of a finished stream: a trailing unterminated line is given its line feed. */
  function AllLines(s: Bytes): (ls: seq<Bytes>) {
    CompleteLines(s) + (if Remainder(s) == [] then [] else [Remainder(s) + [LF]])
  }

  lemma AllLinesAreLines(s: Bytes)
    ensures AreLines(AllLines(s))
  {
    CompleteLinesAreLines(s);
    RemainderLfFree(s);
    var r := Remainder(s);
    assert (r + [LF])[..|r|] == r;
  }
}
