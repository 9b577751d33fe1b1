/** Inserting into a list and removing from it, and how both act on a list in parts. */
module Splices {
  function Min(a: int, b: int): int {
    if a < b then a else b
  }

  function SetOf<T>(s: seq<T>): set<T> {
    set x | x in s
  }

  function Inserted<T>(s: seq<T>, at: nat, more: seq<T>): (r: seq<T>)
    requires at <= |s|
    ensures |r| == |s| + |more|
  {
    s[..at] + more + s[at..]
  }

  function Removed<T>(s: seq<T>, at: nat, n: nat): (r: seq<T>)
    requires at + n <= |s|
    ensures |r| == |s| - n
  {
    s[..at] + s[at + n..]
  }

  lemma Associates<T>(a: seq<T>, b: seq<T>, c: seq<T>)
    ensures a + (b + c) == (a + b) + c
  {
  }

  lemma InsertedAtSeam<T>(a: seq<T>, b: seq<T>, more: seq<T>)
    ensures Inserted(a + b, |a|, more) == a + more + b
  {
    assert (a + b)[..|a|] == a && (a + b)[|a|..] == b;
  }

  lemma NothingDone<T>(s: seq<T>, at: nat)
    requires at <= |s|
    ensures Removed(s, at, 0) == s && Inserted(s, at, []) == s
  {
  }

  lemma InsertedWithin<T>(a: seq<T>, c: seq<T>, b: seq<T>, at: nat, more: seq<T>)
    requires at <= |c|
    ensures Inserted(a + c + b, |a| + at, more) == a + Inserted(c, at, more) + b
  {
  }

  lemma RemovedBeyond<T>(c: seq<T>, b: seq<T>, at: nat, n: nat)
    requires |c| <= at && at + n <= |c| + |b|
    ensures Removed(c + b, at, n) == c + Removed(b, at - |c|, n)
  {
    assert (c + b)[..at] == c + b[..at - |c|] && (c + b)[at + n..] == b[at - |c| + n..];
  }

  lemma RemovedAcross<T>(c: seq<T>, b: seq<T>, at: nat, n: nat, rm: nat)
    requires at < |c| && at + n <= |c| + |b| && rm == Min(n, |c| - at)
    ensures Removed(c + b, at, n) == Removed(c, at, rm) + Removed(b, 0, n - rm)
  {
    assert (c + b)[..at] == c[..at] && (c + b)[at + n..] == c[at + rm..] + b[n - rm..];
  }

  lemma SliceAcross<T>(c: seq<T>, b: seq<T>, at: nat, n: nat, used: nat)
    requires at < |c| && at + n <= |c| + |b| && used == Min(n, |c| - at)
    ensures (c + b)[at..at + n] == c[at..at + used] + b[..n - used]
  {
  }

  lemma SliceBeyond<T>(c: seq<T>, b: seq<T>, at: nat, n: nat)
    requires |c| <= at && at + n <= |c| + |b|
    ensures (c + b)[at..at + n] == b[at - |c|..at - |c| + n]
  {
  }
}
