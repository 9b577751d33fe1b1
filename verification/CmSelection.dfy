/** Building a selection out of a list of ranges: sorting them and joining those that
    touch (normalizeSelection in codemirror.js). */
module CmSelection {
  import opened Wrappers
  import opened CmText

  function MinPos(a: Pos, b: Pos): Pos {
    if Cmp(a, b) < 0 then a else b
  }

  function MaxPos(a: Pos, b: Pos): Pos {
    if Cmp(a, b) < 0 then b else a
  }

  function From(r: Range): Pos {
    MinPos(r.anchor, r.head)
  }

  function To(r: Range): Pos {
    MaxPos(r.anchor, r.head)
  }

  predicate Inverted(r: Range) {
    From(r) == r.head
  }

  predicate Touch(prev: Range, cur: Range) {
    Cmp(To(prev), From(cur)) >= 0
  }

  /** Two touching ranges as one, with the direction of the first unless that is empty. */
  function Joined(prev: Range, cur: Range): Range {
    var from, to := MinPos(From(prev), From(cur)), MaxPos(To(prev), To(cur));
    var inv := if prev.Empty() then Inverted(cur) else Inverted(prev);
    if inv then Range(to, from) else Range(from, to)
  }

  // ----- sorting -----

  predicate Ordered(s: seq<Range>) {
    forall i, j :: 0 <= i < j < |s| ==> Le(From(s[i]), From(s[j]))
  }

  function Inserted(s: seq<Range>, r: Range): seq<Range> {
    if s == [] || Le(From(Last(s)), From(r)) then s + [r] else Inserted(Init(s), r) + [Last(s)]
  }

  /** The ranges in the order of their starts, ties as they were. */
  function SortByFrom(s: seq<Range>): seq<Range> {
    if s == [] then [] else Inserted(SortByFrom(Init(s)), Last(s))
  }

  lemma {:induction false} InsertedKeepsAll(s: seq<Range>, r: Range)
    ensures multiset(Inserted(s, r)) == multiset(s) + multiset{r}
  {
    if s != [] && !Le(From(Last(s)), From(r)) {
      InsertedKeepsAll(Init(s), r);
      assert s == Init(s) + [Last(s)];
    }
  }

  lemma {:induction false} InsertedIsOrdered(s: seq<Range>, r: Range)
    requires Ordered(s)
    ensures Ordered(Inserted(s, r))
  {
    if s != [] {
      var last := Last(s);
      if Le(From(last), From(r)) {
        assert forall x :: x in s ==> Le(From(x), From(last));
      } else {
        InsertedIsOrdered(Init(s), r);
        InsertedKeepsAll(Init(s), r);
        var t := Inserted(Init(s), r);
        forall x | x in t
          ensures Le(From(x), From(last))
        {
          assert x in multiset(t);
          assert x == r || x in Init(s);
        }
      }
    }
  }

  lemma {:induction false} SortIsOrdered(s: seq<Range>)
    ensures Ordered(SortByFrom(s)) && multiset(SortByFrom(s)) == multiset(s)
  {
    if s != [] {
      SortIsOrdered(Init(s));
      InsertedIsOrdered(SortByFrom(Init(s)), Last(s));
      InsertedKeepsAll(SortByFrom(Init(s)), Last(s));
      assert s == Init(s) + [Last(s)];
    }
  }

  lemma {:induction false} SortedStays(s: seq<Range>)
    requires Ordered(s)
    ensures SortByFrom(s) == s
  {
    if s != [] {
      SortedStays(Init(s));
      assert s == Init(s) + [Last(s)];
    }
  }

  // ----- joining -----

  /** The first ranges are done, the others are joined to them one after the other. */
  function MergeFrom(done: seq<Range>, todo: seq<Range>, primIndex: int): Selection
    requires done != []
    decreases |todo|
  {
    if todo == [] then Selection(done, primIndex)
    else if Touch(Last(done), todo[0]) then
      MergeFrom(Init(done) + [Joined(Last(done), todo[0])], todo[1..],
                if |done| <= primIndex then primIndex - 1 else primIndex)
    else MergeFrom(done + [todo[0]], todo[1..], primIndex)
  }

  function FirstIndex(s: seq<Range>, r: Range): nat
    requires r in s
    ensures FirstIndex(s, r) < |s| && s[FirstIndex(s, r)] == r && r !in s[..FirstIndex(s, r)]
  {
    if s[0] == r then 0 else 1 + FirstIndex(s[1..], r)
  }

  function Normalized(ranges: seq<Range>, primIndex: nat): Selection
    requires primIndex < |ranges|
  {
    SortIsOrdered(ranges);
    var sorted := SortByFrom(ranges);
    assert ranges[primIndex] in multiset(sorted) && |sorted| == |ranges|;
    MergeFrom(sorted[..1], sorted[1..], FirstIndex(sorted, ranges[primIndex]))
  }

  lemma MergeJoins(ranges: seq<Range>, i: nat, primIndex: int, joined: Range)
    requires 1 <= i < |ranges| && Touch(ranges[i - 1], ranges[i]) && joined == Joined(ranges[i - 1], ranges[i])
    ensures var next := ranges[..i - 1] + [joined] + ranges[i + 1..];
            && |next| == |ranges| - 1
            && MergeFrom(next[..i], next[i..], if i <= primIndex then primIndex - 1 else primIndex)
            == MergeFrom(ranges[..i], ranges[i..], primIndex)
  {
    var next := ranges[..i - 1] + [joined] + ranges[i + 1..];
    var done, todo := ranges[..i], ranges[i..];
    assert next[..i] == Init(done) + [Joined(Last(done), todo[0])] && next[i..] == todo[1..];
  }

  lemma MergeSkips(ranges: seq<Range>, i: nat, primIndex: int)
    requires 1 <= i < |ranges| && !Touch(ranges[i - 1], ranges[i])
    ensures MergeFrom(ranges[..i + 1], ranges[i + 1..], primIndex) == MergeFrom(ranges[..i], ranges[i..], primIndex)
  {
    var done, todo := ranges[..i], ranges[i..];
    assert ranges[..i + 1] == done + [todo[0]] && ranges[i + 1..] == todo[1..];
  }

  method NormalizeSelection(given: seq<Range>, prim: nat) returns (sel: Selection)
    requires prim < |given|
    ensures sel == Normalized(given, prim)
  {
    hide MergeFrom, SortByFrom;
    var primary := given[prim];
    var ranges := SortByFrom(given);
    SortIsOrdered(given);
    assert primary in multiset(ranges) && |multiset(ranges)| == |multiset(given)|;
    var primIndex := IndexOf(ranges, primary);
    FirstIsUnique(ranges, primary, primIndex);
    ghost var sorted, start := ranges, primIndex;
    var i := 1;
    while i < |ranges|
      invariant 1 <= i <= |ranges|
      invariant MergeFrom(ranges[..i], ranges[i..], primIndex) == MergeFrom(sorted[..1], sorted[1..], start)
      decreases |ranges| - i
    {
      var cur, prev := ranges[i], ranges[i - 1];
      if Cmp(To(prev), From(cur)) >= 0 {
        var from, to := MinPos(From(prev), From(cur)), MaxPos(To(prev), To(cur));
        var inv := if prev.Empty() then From(cur) == cur.head else From(prev) == prev.head;
        var joined := Range(if inv then to else from, if inv then from else to);
        MergeJoins(ranges, i, primIndex, joined);
        if i <= primIndex {
          primIndex := primIndex - 1;
        }
        i := i - 1;
        ranges := ranges[..i] + [joined] + ranges[i + 2..];
      } else {
        MergeSkips(ranges, i, primIndex);
      }
      i := i + 1;
    }
    MergeEnds(ranges, i, primIndex);
    sel := Selection(ranges, primIndex);
  }

  lemma MergeEnds(ranges: seq<Range>, i: nat, primIndex: int)
    requires i == |ranges| > 0
    ensures MergeFrom(ranges[..i], ranges[i..], primIndex) == Selection(ranges, primIndex)
  {
    assert ranges[..i] == ranges && ranges[i..] == [];
  }

  lemma FirstIsUnique(s: seq<Range>, r: Range, i: nat)
    requires i < |s| && s[i] == r && r !in s[..i]
    ensures FirstIndex(s, r) == i
  {
    var k := FirstIndex(s, r);
    assert forall j :: 0 <= j < i ==> s[..i][j] != r;
    assert forall j :: 0 <= j < k ==> s[..k][j] != r;
  }

  // ----- what normalizing means -----

  /** In order, none touching the next. */
  predicate Separated(s: seq<Range>) {
    forall i, j :: 0 <= i < j < |s| ==> Cmp(To(s[i]), From(s[j])) < 0
  }

  predicate Holds(r: Range, p: Pos) {
    Le(From(r), p) && Le(p, To(r))
  }

  predicate Covered(s: seq<Range>, p: Pos) {
    exists r :: r in s && Holds(r, p)
  }

  predicate Within(r: Range, s: Range) {
    Le(From(s), From(r)) && Le(To(r), To(s))
  }

  lemma JoinedSpans(prev: Range, cur: Range)
    requires Le(From(prev), From(cur)) && Touch(prev, cur)
    ensures var r := Joined(prev, cur);
            && From(r) == From(prev) && To(r) == MaxPos(To(prev), To(cur))
            && Within(prev, r) && Within(cur, r)
            && forall p :: Holds(r, p) <==> Holds(prev, p) || Holds(cur, p)
  {
  }

  lemma CoveredByParts(a: seq<Range>, b: seq<Range>, p: Pos)
    ensures Covered(a + b, p) <==> Covered(a, p) || Covered(b, p)
  {
    if r :| r in a && Holds(r, p) {
      assert r in a + b;
    }
    if r :| r in b && Holds(r, p) {
      assert r in a + b;
    }
  }

  lemma CoveredByOne(r: Range, p: Pos)
    ensures Covered([r], p) <==> Holds(r, p)
  {
    if Holds(r, p) {
      assert r in [r];
    }
  }

  lemma CoveredByRest(s: seq<Range>, p: Pos)
    requires s != []
    ensures Covered(s, p) <==> Holds(s[0], p) || Covered(s[1..], p)
    ensures Covered(s, p) <==> Covered(Init(s), p) || Holds(Last(s), p)
  {
    assert s == [s[0]] + s[1..] && s == Init(s) + [Last(s)];
    CoveredByParts([s[0]], s[1..], p);
    CoveredByParts(Init(s), [Last(s)], p);
    CoveredByOne(s[0], p);
    CoveredByOne(Last(s), p);
  }

  lemma JoiningCovers(done: seq<Range>, next: Range, p: Pos)
    requires done != [] && Le(From(Last(done)), From(next)) && Touch(Last(done), next)
    ensures Covered(Init(done) + [Joined(Last(done), next)], p) <==> Covered(done, p) || Holds(next, p)
  {
    var joined := Joined(Last(done), next);
    JoinedSpans(Last(done), next);
    CoveredByParts(Init(done), [joined], p);
    CoveredByOne(joined, p);
    CoveredByRest(done, p);
  }

  lemma JoiningSeparates(done: seq<Range>, todo: seq<Range>)
    requires done != [] && todo != [] && Separated(done) && Ordered([Last(done)] + todo) && Touch(Last(done), todo[0])
    ensures var joined := Joined(Last(done), todo[0]);
            Separated(Init(done) + [joined]) && Ordered([joined] + todo[1..])
  {
    var last, all := Last(done), [Last(done)] + todo;
    assert all[0] == last && all[1] == todo[0];
    JoinedSpans(last, todo[0]);
    assert forall i :: 0 <= i < |todo[1..]| ==> todo[1..][i] == all[i + 2];
  }

  /** The place the primary index names after a join. */
  lemma JoiningKeepsPrimary(done: seq<Range>, todo: seq<Range>, prim: nat, primary: Range)
    requires done != [] && todo != [] && Le(From(Last(done)), From(todo[0])) && Touch(Last(done), todo[0])
    requires prim < |done + todo| && Within(primary, (done + todo)[prim])
    ensures var joined, moved := Joined(Last(done), todo[0]), if |done| <= prim then prim - 1 else prim;
            var after := Init(done) + [joined] + todo[1..];
            0 <= moved < |after| && Within(primary, after[moved])
  {
    JoinedSpans(Last(done), todo[0]);
  }

  lemma SkippingSeparates(done: seq<Range>, todo: seq<Range>)
    requires done != [] && todo != [] && Separated(done) && Ordered([Last(done)] + todo) && !Touch(Last(done), todo[0])
    ensures Separated(done + [todo[0]]) && Ordered([todo[0]] + todo[1..])
  {
    var all := [Last(done)] + todo;
    assert all[1..] == todo && [todo[0]] + todo[1..] == todo;
    assert forall i :: 0 <= i < |todo| ==> todo[i] == all[i + 1];
    forall i | 0 <= i < |done|
      ensures Cmp(To(done[i]), From(todo[0])) < 0
    {
      assert i < |done| - 1 ==> Cmp(To(done[i]), From(Last(done))) < 0;
    }
  }

  /** The merge separates the ranges, covers the same positions, and its primary index names
      a range that contains the one it named before. */
  lemma {:induction false} MergeIsSound(done: seq<Range>, todo: seq<Range>, prim: nat, primary: Range)
    requires done != [] && Separated(done) && Ordered([Last(done)] + todo)
    requires prim < |done + todo| && Within(primary, (done + todo)[prim])
    ensures var sel := MergeFrom(done, todo, prim);
            && Separated(sel.ranges)
            && (forall p :: Covered(sel.ranges, p) <==> Covered(done, p) || Covered(todo, p))
            && 0 <= sel.primIndex < |sel.ranges| && Within(primary, sel.ranges[sel.primIndex])
    decreases |todo|
  {
    if todo == [] {
      assert done + todo == done;
    } else {
      var last, next, rest := Last(done), todo[0], todo[1..];
      assert Le(From(last), From(next)) by {
        assert ([last] + todo)[0] == last && ([last] + todo)[1] == next;
      }
      if Touch(last, next) {
        JoiningSeparates(done, todo);
        JoiningKeepsPrimary(done, todo, prim, primary);
        MergeIsSound(Init(done) + [Joined(last, next)], rest, if |done| <= prim then prim - 1 else prim, primary);
        forall p
          ensures Covered(Init(done) + [Joined(last, next)], p) || Covered(rest, p)
             <==> Covered(done, p) || Covered(todo, p)
        {
          JoiningCovers(done, next, p);
          CoveredByRest(todo, p);
        }
      } else {
        SkippingSeparates(done, todo);
        assert done + [next] + rest == done + todo;
        MergeIsSound(done + [next], rest, prim, primary);
        forall p
          ensures Covered(done + [next], p) || Covered(rest, p) <==> Covered(done, p) || Covered(todo, p)
        {
          CoveredByParts(done, [next], p);
          CoveredByOne(next, p);
          CoveredByRest(todo, p);
        }
      }
    }
  }

  /** The sorted list starts with its first range done and the others to do. */
  lemma SortedToMerge(given: seq<Range>, prim: nat) returns (sorted: seq<Range>, start: nat)
    requires prim < |given|
    ensures sorted == SortByFrom(given) && Ordered(sorted) && |sorted| == |given|
    ensures start < |sorted| && sorted[start] == given[prim]
    ensures Normalized(given, prim) == MergeFrom(sorted[..1], sorted[1..], start)
    ensures sorted[..1] + sorted[1..] == sorted && [Last(sorted[..1])] + sorted[1..] == sorted
    ensures forall r :: r in sorted <==> r in given
  {
    hide SortByFrom, MergeFrom;
    SortIsOrdered(given);
    sorted := SortByFrom(given);
    SameRanges(sorted, given);
    start := FirstIndex(sorted, given[prim]);
    CutFirst(sorted);
  }

  lemma SameRanges(s: seq<Range>, t: seq<Range>)
    requires multiset(s) == multiset(t)
    ensures |s| == |t| && forall r :: r in s <==> r in t
  {
    assert |multiset(s)| == |multiset(t)|;
    assert forall r :: r in s <==> r in multiset(s);
    assert forall r :: r in t <==> r in multiset(t);
  }

  lemma CutFirst(s: seq<Range>)
    requires s != []
    ensures s[..1] + s[1..] == s && [Last(s[..1])] + s[1..] == s
  {
  }

  lemma NormalizedIsSound(given: seq<Range>, prim: nat)
    requires prim < |given|
    ensures var sel := Normalized(given, prim);
            && Separated(sel.ranges)
            && (forall p :: Covered(sel.ranges, p) <==> Covered(given, p))
            && 0 <= sel.primIndex < |sel.ranges| && Within(given[prim], sel.ranges[sel.primIndex])
  {
    hide Normalized, MergeFrom, SortByFrom;
    var sorted, start := SortedToMerge(given, prim);
    MergeIsSound(sorted[..1], sorted[1..], start, given[prim]);
    forall p
      ensures Covered(sorted[..1], p) || Covered(sorted[1..], p) <==> Covered(given, p)
    {
      CoveredByParts(sorted[..1], sorted[1..], p);
    }
  }

  // ----- what does not depend on the order of ties -----

  /** The place right after p is inside a range. */
  predicate Crossed(s: seq<Range>, p: Pos) {
    exists r :: r in s && Spans(r, p)
  }

  predicate Spans(r: Range, p: Pos) {
    Le(From(r), p) && Cmp(p, To(r)) < 0
  }

  predicate SameSpans(a: seq<Range>, b: seq<Range>) {
    |a| == |b| && forall i :: 0 <= i < |a| ==> From(a[i]) == From(b[i]) && To(a[i]) == To(b[i])
  }

  lemma CrossedByParts(a: seq<Range>, b: seq<Range>, p: Pos)
    ensures Crossed(a + b, p) <==> Crossed(a, p) || Crossed(b, p)
  {
    if r :| r in a && Spans(r, p) {
      assert r in a + b;
    }
    if r :| r in b && Spans(r, p) {
      assert r in a + b;
    }
  }

  lemma CrossedByOne(r: Range, p: Pos)
    ensures Crossed([r], p) <==> Spans(r, p)
  {
    if Spans(r, p) {
      assert r in [r];
    }
  }

  lemma JoiningCrosses(done: seq<Range>, next: Range, p: Pos)
    requires done != [] && Le(From(Last(done)), From(next))
    ensures Crossed(done + [next], p) <==> Crossed(done, p) || Spans(next, p)
    ensures Touch(Last(done), next) ==>
              (Crossed(Init(done) + [Joined(Last(done), next)], p) <==> Crossed(done, p) || Spans(next, p))
  {
    var last, joined := Last(done), Joined(Last(done), next);
    assert done == Init(done) + [last];
    CrossedByParts(Init(done), [last], p);
    CrossedByParts(Init(done), [joined], p);
    CrossedByParts(done, [next], p);
    CrossedByOne(last, p);
    CrossedByOne(joined, p);
    CrossedByOne(next, p);
    if Touch(last, next) {
      JoinedSpans(last, next);
    }
  }

  /** The merge crosses the same places, too. */
  lemma {:induction false} MergeCrosses(done: seq<Range>, todo: seq<Range>, prim: int, p: Pos)
    requires done != [] && Ordered([Last(done)] + todo)
    ensures Crossed(MergeFrom(done, todo, prim).ranges, p) <==> Crossed(done, p) || Crossed(todo, p)
    decreases |todo|
  {
    hide Crossed, Spans, Joined;
    if todo == [] {
      NothingCrossed(p);
    } else {
      var next, rest := todo[0], todo[1..];
      OrderedNext(done, todo);
      assert todo == [next] + rest;
      CrossedByParts([next], rest, p);
      CrossedByOne(next, p);
      JoiningCrosses(done, next, p);
      if Touch(Last(done), next) {
        MergeCrosses(Init(done) + [Joined(Last(done), next)], rest, if |done| <= prim then prim - 1 else prim, p);
      } else {
        MergeCrosses(done + [next], rest, prim, p);
      }
    }
  }

  lemma NothingCrossed(p: Pos)
    ensures !Crossed([], p)
  {
  }

  lemma OrderedNext(done: seq<Range>, todo: seq<Range>)
    requires done != [] && todo != [] && Ordered([Last(done)] + todo)
    ensures Le(From(Last(done)), From(todo[0])) && Ordered([todo[0]] + todo[1..])
    ensures Touch(Last(done), todo[0]) ==> Ordered([Joined(Last(done), todo[0])] + todo[1..])
  {
    var all := [Last(done)] + todo;
    assert all[0] == Last(done) && all[1] == todo[0];
    assert forall i :: 0 <= i < |todo| ==> todo[i] == all[i + 1];
    if Touch(Last(done), todo[0]) {
      JoinedSpans(Last(done), todo[0]);
    }
  }

  /** Two lists of separate ranges that cover and cross the same places have the same spans. */
  lemma {:induction false} SpansAreDetermined(a: seq<Range>, b: seq<Range>)
    requires Separated(a) && Separated(b)
    requires forall p :: (Covered(a, p) <==> Covered(b, p)) && (Crossed(a, p) <==> Crossed(b, p))
    ensures SameSpans(a, b)
  {
    if a == [] {
      NothingCovered(b);
    } else if b == [] {
      NothingCovered(a);
    } else {
      StartsFirst(a, b);
      StartsFirst(b, a);
      EndsFirst(a, b);
      EndsFirst(b, a);
      forall p
        ensures Covered(a[1..], p) <==> Covered(b[1..], p)
        ensures Crossed(a[1..], p) <==> Crossed(b[1..], p)
      {
        BehindFirst(a, p);
        BehindFirst(b, p);
      }
      SpansAreDetermined(a[1..], b[1..]);
      assert forall i :: 0 < i < |a| ==> a[i] == a[1..][i - 1];
      assert forall i :: 0 < i < |b| ==> b[i] == b[1..][i - 1];
    }
  }

  lemma NothingCovered(b: seq<Range>)
    requires forall p :: !Covered(b, p)
    ensures b == []
  {
    if b != [] {
      assert b[0] in b && Holds(b[0], From(b[0]));
      assert Covered(b, From(b[0]));
    }
  }

  lemma StartsFirst(a: seq<Range>, b: seq<Range>)
    requires a != [] && b != [] && Separated(b)
    requires forall p :: Covered(a, p) ==> Covered(b, p)
    ensures Le(From(b[0]), From(a[0]))
  {
    assert a[0] in a && Holds(a[0], From(a[0]));
    assert Covered(a, From(a[0]));
    var r :| r in b && Holds(r, From(a[0]));
    var i :| 0 <= i < |b| && b[i] == r;
    assert i > 0 ==> Cmp(To(b[0]), From(b[i])) < 0;
  }

  lemma EndNotCrossed(b: seq<Range>)
    requires b != [] && Separated(b)
    ensures !Crossed(b, To(b[0]))
  {
    forall r | r in b
      ensures !Spans(r, To(b[0]))
    {
      var i :| 0 <= i < |b| && b[i] == r;
      assert i > 0 ==> Cmp(To(b[0]), From(b[i])) < 0;
    }
  }

  lemma EndsFirst(a: seq<Range>, b: seq<Range>)
    requires a != [] && b != [] && Separated(b) && From(a[0]) == From(b[0])
    requires forall p :: Crossed(a, p) ==> Crossed(b, p)
    ensures Le(To(a[0]), To(b[0]))
  {
    EndNotCrossed(b);
    assert !Crossed(a, To(b[0])) && a[0] in a;
    assert !Spans(a[0], To(b[0]));
  }

  lemma RestIsBehind(a: seq<Range>)
    requires a != [] && Separated(a)
    ensures Separated(a[1..]) && forall r :: r in a[1..] ==> Cmp(To(a[0]), From(r)) < 0
  {
    forall r | r in a[1..]
      ensures Cmp(To(a[0]), From(r)) < 0
    {
      var i :| 0 <= i < |a[1..]| && a[1..][i] == r;
      assert r == a[i + 1];
    }
  }

  /** The rest covers and crosses what lies behind the first range. */
  lemma BehindFirst(a: seq<Range>, p: Pos)
    requires a != [] && Separated(a)
    ensures Separated(a[1..])
    ensures Covered(a[1..], p) <==> Covered(a, p) && Cmp(To(a[0]), p) < 0
    ensures Crossed(a[1..], p) <==> Crossed(a, p) && Cmp(To(a[0]), p) < 0
  {
    hide Separated, From, To;
    RestIsBehind(a);
    assert a == [a[0]] + a[1..];
    CoveredByRest(a, p);
    CrossedByParts([a[0]], a[1..], p);
    CrossedByOne(a[0], p);
  }

  lemma {:induction false} MergeIgnoresPrimary(done: seq<Range>, todo: seq<Range>, i: int, j: int)
    requires done != []
    ensures MergeFrom(done, todo, i).ranges == MergeFrom(done, todo, j).ranges
    decreases |todo|
  {
    if todo != [] {
      if Touch(Last(done), todo[0]) {
        MergeIgnoresPrimary(Init(done) + [Joined(Last(done), todo[0])], todo[1..],
                            if |done| <= i then i - 1 else i, if |done| <= j then j - 1 else j);
      } else {
        MergeIgnoresPrimary(done + [todo[0]], todo[1..], i, j);
      }
    }
  }

  /** Merging any sorted arrangement of the ranges, with the primary index at any range equal
      to the primary one: the result covers and crosses what the given ranges do. */
  lemma MergeOfSorted(given: seq<Range>, prim: nat, sorted: seq<Range>, i: nat)
    requires prim < |given| && Ordered(sorted) && multiset(sorted) == multiset(given)
    requires i < |sorted| && sorted[i] == given[prim]
    ensures var sel := MergeFrom(sorted[..1], sorted[1..], i);
            && Separated(sel.ranges)
            && (forall p :: Covered(sel.ranges, p) <==> Covered(given, p))
            && (forall p :: Crossed(sel.ranges, p) <==> Crossed(given, p))
            && 0 <= sel.primIndex < |sel.ranges| && Within(given[prim], sel.ranges[sel.primIndex])
  {
    hide MergeFrom, SortByFrom;
    SameRanges(sorted, given);
    CutFirst(sorted);
    MergeIsSound(sorted[..1], sorted[1..], i, given[prim]);
    forall p
      ensures Covered(sorted[..1], p) || Covered(sorted[1..], p) <==> Covered(given, p)
      ensures Crossed(MergeFrom(sorted[..1], sorted[1..], i).ranges, p) <==> Crossed(given, p)
    {
      CoveredByParts(sorted[..1], sorted[1..], p);
      CrossedByParts(sorted[..1], sorted[1..], p);
      MergeCrosses(sorted[..1], sorted[1..], i, p);
    }
  }

  lemma OnePlaceOnly(a: seq<Range>, b: seq<Range>, i: nat, j: nat, r: Range)
    requires Separated(a) && SameSpans(a, b) && i < |a| && j < |b| && Within(r, a[i]) && Within(r, b[j])
    ensures i == j
  {
    assert Within(r, a[j]);
  }

  /** However the sort arranges ranges with the same start, and whichever of equal ranges is
      taken for the primary one, the spans and the primary index are the same; with the
      stable arrangement the directions are, too. */
  lemma AnyArrangementNormalizes(given: seq<Range>, prim: nat, sorted: seq<Range>, i: nat)
    requires prim < |given| && Ordered(sorted) && multiset(sorted) == multiset(given)
    requires i < |sorted| && sorted[i] == given[prim]
    ensures var sel, normal := MergeFrom(sorted[..1], sorted[1..], i), Normalized(given, prim);
            && SameSpans(sel.ranges, normal.ranges) && sel.primIndex == normal.primIndex
            && (sorted == SortByFrom(given) ==> sel == normal)
  {
    hide MergeFrom, SortByFrom, Normalized;
    var stable, k := SortedToMerge(given, prim);
    var sel, normal := MergeFrom(sorted[..1], sorted[1..], i), Normalized(given, prim);
    SortIsOrdered(given);
    MergeOfSorted(given, prim, sorted, i);
    MergeOfSorted(given, prim, stable, k);
    SpansAreDetermined(sel.ranges, normal.ranges);
    OnePlaceOnly(sel.ranges, normal.ranges, sel.primIndex, normal.primIndex, given[prim]);
    MergeIgnoresPrimary(stable[..1], stable[1..], i, k);
  }

  // ----- the direction of a joined range -----

  /** Range i is the first that is not empty among those within r, and has its direction. */
  predicate Leads(s: seq<Range>, i: int, r: Range) {
    && 0 <= i < |s| && !s[i].Empty() && Within(s[i], r) && Inverted(s[i]) == Inverted(r)
    && forall j :: 0 <= j < i && Within(s[j], r) ==> s[j].Empty()
  }

  ghost predicate Led(s: seq<Range>, r: Range) {
    r.Empty() || exists i :: Leads(s, i, r)
  }

  ghost predicate AllLed(past: seq<Range>, done: seq<Range>) {
    forall r :: r in done ==> Led(past, r)
  }

  predicate EndBy(past: seq<Range>, p: Pos) {
    forall r :: r in past ==> Le(To(r), p)
  }

  lemma LedLater(past: seq<Range>, next: Range, r: Range)
    requires Led(past, r)
    ensures Led(past + [next], r)
  {
    if !r.Empty() {
      var i :| Leads(past, i, r);
      assert Leads(past + [next], i, r);
    }
  }

  lemma JoinedIsLed(past: seq<Range>, last: Range, next: Range)
    requires Le(From(last), From(next)) && Touch(last, next) && Led(past, last) && EndBy(past, To(last))
    ensures Led(past + [next], Joined(last, next)) && EndBy(past + [next], To(Joined(last, next)))
  {
    var r, now := Joined(last, next), past + [next];
    JoinedSpans(last, next);
    if !last.Empty() {
      var i :| Leads(past, i, last);
      assert Leads(now, i, r);
    } else if !next.Empty() {
      assert Leads(now, |past|, r);
    }
  }

  lemma SkippedIsLed(past: seq<Range>, last: Range, next: Range)
    requires !Touch(last, next) && EndBy(past, To(last))
    ensures Led(past + [next], next) && EndBy(past + [next], To(next))
  {
    if !next.Empty() {
      assert Leads(past + [next], |past|, next);
    }
  }

  lemma JoinStepIsLed(past: seq<Range>, done: seq<Range>, next: Range)
    requires done != [] && AllLed(past, done) && EndBy(past, To(Last(done)))
    requires Le(From(Last(done)), From(next)) && Touch(Last(done), next)
    ensures var now := Init(done) + [Joined(Last(done), next)];
            AllLed(past + [next], now) && EndBy(past + [next], To(Last(now)))
  {
    JoinedIsLed(past, Last(done), next);
    forall r | r in Init(done)
      ensures Led(past + [next], r)
    {
      assert r in done;
      LedLater(past, next, r);
    }
  }

  lemma SkipStepIsLed(past: seq<Range>, done: seq<Range>, next: Range)
    requires done != [] && AllLed(past, done) && EndBy(past, To(Last(done))) && !Touch(Last(done), next)
    ensures AllLed(past + [next], done + [next]) && EndBy(past + [next], To(next))
  {
    SkippedIsLed(past, Last(done), next);
    forall r | r in done
      ensures Led(past + [next], r)
    {
      LedLater(past, next, r);
    }
  }

  lemma {:induction false} MergeIsLed(past: seq<Range>, done: seq<Range>, todo: seq<Range>, prim: int)
    requires done != [] && Separated(done) && Ordered([Last(done)] + todo)
    requires AllLed(past, done) && EndBy(past, To(Last(done)))
    ensures AllLed(past + todo, MergeFrom(done, todo, prim).ranges)
    decreases |todo|
  {
    hide Led, AllLed, EndBy, Joined, Separated;
    if todo == [] {
      assert past + todo == past;
    } else {
      var last, next, rest := Last(done), todo[0], todo[1..];
      assert Le(From(last), From(next)) by {
        assert ([last] + todo)[0] == last && ([last] + todo)[1] == next;
      }
      assert past + [next] + rest == past + todo;
      if Touch(last, next) {
        JoinStepIsLed(past, done, next);
        JoiningSeparates(done, todo);
        MergeIsLed(past + [next], Init(done) + [Joined(last, next)], rest, if |done| <= prim then prim - 1 else prim);
      } else {
        SkipStepIsLed(past, done, next);
        SkippingSeparates(done, todo);
        MergeIsLed(past + [next], done + [next], rest, prim);
      }
    }
  }

  /** A range of the result points the way of the first range in it that is not empty. */
  lemma NormalizedKeepsDirection(given: seq<Range>, prim: nat)
    requires prim < |given|
    ensures AllLed(SortByFrom(given), Normalized(given, prim).ranges)
  {
    hide Normalized, MergeFrom, SortByFrom;
    var sorted, start := SortedToMerge(given, prim);
    var first := sorted[0];
    if !first.Empty() {
      assert Leads([first], 0, first);
    }
    assert sorted[..1] == [first];
    MergeIsLed([first], [first], sorted[1..], start);
  }

  lemma {:induction false} MergeStays(done: seq<Range>, todo: seq<Range>, prim: int)
    requires done != [] && Separated(done + todo)
    ensures MergeFrom(done, todo, prim) == Selection(done + todo, prim)
    decreases |todo|
  {
    if todo == [] {
      assert done + todo == done;
    } else {
      var all := done + todo;
      assert all[|done| - 1] == Last(done) && all[|done|] == todo[0];
      assert done + [todo[0]] + todo[1..] == all;
      MergeStays(done + [todo[0]], todo[1..], prim);
    }
  }

  lemma SeparatedIsOrdered(s: seq<Range>)
    requires Separated(s)
    ensures Ordered(s) && forall i, j :: 0 <= i < j < |s| ==> s[i] != s[j]
  {
    assert forall i, j :: 0 <= i < j < |s| ==> Cmp(To(s[i]), From(s[j])) < 0;
  }

  /** Normalizing again changes nothing. */
  lemma NormalizedStays(s: seq<Range>, prim: nat)
    requires Separated(s) && prim < |s|
    ensures Normalized(s, prim) == Selection(s, prim)
  {
    SeparatedIsOrdered(s);
    SortedStays(s);
    MergeStays(s[..1], s[1..], prim);
    assert s[..1] + s[1..] == s;
    FirstIsUnique(s, s[prim], prim);
  }

  lemma NormalizingIsIdempotent(given: seq<Range>, prim: nat)
    requires prim < |given|
    ensures var sel := Normalized(given, prim);
            0 <= sel.primIndex < |sel.ranges| && Normalized(sel.ranges, sel.primIndex) == sel
  {
    NormalizedIsSound(given, prim);
    var sel := Normalized(given, prim);
    NormalizedStays(sel.ranges, sel.primIndex);
  }
}
