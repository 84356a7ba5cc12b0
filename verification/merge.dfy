/** What the three k-way merges compute, on the unread items of their input streams.

    Inputs are ascending but may repeat items, so the results are bags: a union keeps the largest
    multiplicity, an intersection the smallest, a difference subtracts.  On strictly ascending
    inputs, where multiplicities are at most one, these are the set operations. */
module Merge {
  import opened Streams

  function Count(s: seq<Id>, x: Id): nat {
    multiset(s)[x]
  }

  function Monus(a: nat, b: nat): nat {
    if a < b then 0 else a - b
  }

  predicate Sorted<K>(rests: map<K, seq<Id>>) {
    forall i :: i in rests ==> Ascending(rests[i]) && Proper(rests[i])
  }

  /** Everything emitted precedes everything unread. */
  predicate Before(out: seq<Id>, rest: seq<Id>) {
    forall i, j :: 0 <= i < |out| && 0 <= j < |rest| ==> out[i] <= rest[j]
  }

  // ----- counting

  lemma CountHead(s: seq<Id>, x: Id)
    requires s != []
    ensures Count(s, x) == Count(s[1..], x) + (if x == s[0] then 1 else 0)
  {
    assert s == [s[0]] + s[1..];
  }

  lemma CountAppend(s: seq<Id>, v: Id, x: Id)
    ensures Count(s + [v], x) == Count(s, x) + (if x == v then 1 else 0)
  {}

  lemma CountConcat(s: seq<Id>, t: seq<Id>, x: Id)
    ensures Count(s + t, x) == Count(s, x) + Count(t, x)
  {}

  lemma CountAbsent(s: seq<Id>, x: Id)
    requires Ascending(s) && (s != [] ==> x < s[0])
    ensures Count(s, x) == 0
  {
    assert x !in s;
  }

  lemma CountPresent(s: seq<Id>, x: Id)
    ensures x in s <==> Count(s, x) > 0
  {
    assert x in s <==> x in multiset(s);
  }

  /** Skipping items below a target does not touch the counts at or above it. */
  lemma CountSkipped(was: seq<Id>, now: seq<Id>, k: nat, target: Id, x: Id)
    requires SkippedBelow(was, now, k, target)
    ensures Count(now, x) <= Count(was, x)
    ensures x >= target ==> Count(now, x) == Count(was, x)
  {
    assert was == was[..k] + was[k..];
    CountConcat(was[..k], was[k..], x);
    if x >= target {
      CountPresent(was[..k], x);
    }
  }

  /** An input's unread items are ascending and follow the output. */
  predicate Follows(rest: seq<Id>, out: seq<Id>) {
    Ascending(rest) && Proper(rest) && Before(out, rest)
  }

  /** What may be sent: ascending ids of objects. */
  predicate Listing(out: seq<Id>) {
    Ascending(out) && Proper(out)
  }

  /** `x` sorts before the last item emitted, so it is settled. */
  predicate Passed(out: seq<Id>, x: Id) {
    out != [] && x < out[|out| - 1]
  }

  /** Nothing that is settled is among the unread items. */
  lemma PassedIsRead(rest: seq<Id>, out: seq<Id>, x: Id)
    requires Follows(rest, out) && Passed(out, x)
    ensures Count(rest, x) == 0
  {
    CountAbsent(rest, x);
  }

  ghost predicate InOrder<K>(rests: map<K, seq<Id>>, out: seq<Id>) {
    Listing(out) && forall i :: i in rests ==> Follows(rests[i], out)
  }

  lemma EmitInOrder(rest: seq<Id>, out: seq<Id>)
    requires rest != [] && Listing(out) && Follows(rest, out)
    ensures Listing(out + [rest[0]])
  {}

  /** An input keeps following the output when it drops a prefix, and when the output grows by an
      item that is not above its head. */
  lemma DropFollows(was: seq<Id>, now: seq<Id>, out: seq<Id>, v: Id)
    requires Follows(was, out) && IsSuffix(now, was) && (was != [] ==> v <= was[0])
    ensures Follows(now, out + [v])
    ensures Follows(now, out)
  {
    var k: nat :| k <= |was| && now == was[k..];
    SuffixIsAscending(was, k, v);
    BeforeSuffix(out, was, k);
  }

  lemma SuffixIsAscending(was: seq<Id>, k: nat, v: Id)
    requires Ascending(was) && Proper(was) && k <= |was| && (was != [] ==> v <= was[0])
    ensures Ascending(was[k..]) && Proper(was[k..]) && forall j :: 0 <= j < |was[k..]| ==> v <= was[k..][j]
  {}

  lemma BeforeSuffix(out: seq<Id>, was: seq<Id>, k: nat)
    requires Before(out, was) && k <= |was|
    ensures Before(out, was[k..])
  {}

  ghost predicate IsSuffix(now: seq<Id>, was: seq<Id>) {
    exists k :: 0 <= k <= |was| && now == was[k..]
  }

  // ----- union

  /** One round of the union: every stream whose head is `v` moves forward. */
  function Advance(rest: seq<Id>, v: Id): seq<Id> {
    if rest != [] && rest[0] == v then rest[1..] else rest
  }

  lemma AdvanceIsSuffix(rest: seq<Id>, v: Id)
    ensures IsSuffix(Advance(rest, v), rest)
  {
    assert rest == rest[0..];
    assert rest != [] ==> rest[1..] == rest[1..];
  }

  lemma AdvanceCount(rest: seq<Id>, v: Id, x: Id)
    requires Ascending(rest) && (rest != [] ==> v <= rest[0])
    ensures Count(Advance(rest, v), x) == Monus(Count(rest, x), if x == v then 1 else 0)
  {
    if rest != [] && rest[0] == v {
      CountHead(rest, x);
    } else if x == v {
      CountAbsent(rest, v);
    }
  }

  ghost predicate UnionCounts<K>(origin: map<K, seq<Id>>, rests: map<K, seq<Id>>, out: seq<Id>, x: Id)
    requires rests.Keys == origin.Keys
  {
    && (forall i :: i in rests ==> Count(rests[i], x) == Monus(Count(origin[i], x), Count(out, x)))
    && (Count(out, x) > 0 ==> exists i :: i in origin && Count(out, x) <= Count(origin[i], x))
  }

  ghost predicate UnionInv<K>(origin: map<K, seq<Id>>, rests: map<K, seq<Id>>, out: seq<Id>) {
    rests.Keys == origin.Keys && InOrder(rests, out) && forall x :: UnionCounts(origin, rests, out, x)
  }

  /** The largest multiplicity of `x` in the inputs is its multiplicity in the output. */
  ghost predicate IsLargest<K>(origin: map<K, seq<Id>>, out: seq<Id>, x: Id) {
    && (forall i :: i in origin ==> Count(origin[i], x) <= Count(out, x))
    && (Count(out, x) > 0 ==> exists i :: i in origin && Count(out, x) == Count(origin[i], x))
  }

  /** The union of bags, ascending. */
  ghost predicate UnionSpec<K>(origin: map<K, seq<Id>>, out: seq<Id>) {
    Listing(out) && forall x :: IsLargest(origin, out, x)
  }

  /** A first part of the union: nothing beyond it, and all of it below the last item emitted. */
  ghost predicate UnionPart<K>(origin: map<K, seq<Id>>, out: seq<Id>) {
    && Listing(out)
    && forall x ::
         && (Count(out, x) > 0 ==> exists i :: i in origin && Count(out, x) <= Count(origin[i], x))
         && (Passed(out, x) ==> IsLargest(origin, out, x))
  }

  lemma UnionSoFar<K>(origin: map<K, seq<Id>>, rests: map<K, seq<Id>>, out: seq<Id>)
    requires UnionInv(origin, rests, out)
    ensures UnionPart(origin, out)
  {
    forall x: Id
      ensures Count(out, x) > 0 ==> exists i :: i in origin && Count(out, x) <= Count(origin[i], x)
      ensures Passed(out, x) ==> IsLargest(origin, out, x)
    {
      assert UnionCounts(origin, rests, out, x);
      if Passed(out, x) {
        forall i | i in rests ensures Count(rests[i], x) == 0 {
          PassedIsRead(rests[i], out, x);
        }
      }
    }
  }

  lemma UnionStart<K>(origin: map<K, seq<Id>>)
    requires Sorted(origin)
    ensures UnionInv(origin, origin, [])
  {}

  lemma UnionRound<K>(origin: map<K, seq<Id>>, rests: map<K, seq<Id>>, out: seq<Id>, v: Id, rests': map<K, seq<Id>>)
    requires UnionInv(origin, rests, out)
    requires forall i :: i in rests && rests[i] != [] ==> v <= rests[i][0]
    requires exists i :: i in rests && rests[i] != [] && rests[i][0] == v
    requires rests'.Keys == rests.Keys && forall i :: i in rests ==> rests'[i] == Advance(rests[i], v)
    ensures UnionInv(origin, rests', out + [v])
  {
    var w :| w in rests && rests[w] != [] && rests[w][0] == v;
    EmitInOrder(rests[w], out);
    forall i | i in rests ensures Follows(rests'[i], out + [v]) {
      AdvanceIsSuffix(rests[i], v);
      DropFollows(rests[i], rests'[i], out, v);
    }
    forall x: Id ensures UnionCounts(origin, rests', out + [v], x) {
      UnionRoundCounts(origin, rests, out, v, rests', w, x);
    }
  }

  lemma UnionRoundCounts<K>(origin: map<K, seq<Id>>, rests: map<K, seq<Id>>, out: seq<Id>, v: Id, rests': map<K,
                            seq<Id>>, w: K, x: Id)
    requires rests.Keys == origin.Keys && Sorted(rests) && UnionCounts(origin, rests, out, x)
    requires forall i :: i in rests && rests[i] != [] ==> v <= rests[i][0]
    requires w in rests && rests[w] != [] && rests[w][0] == v
    requires rests'.Keys == rests.Keys && forall i :: i in rests ==> rests'[i] == Advance(rests[i], v)
    ensures UnionCounts(origin, rests', out + [v], x)
  {
    CountAppend(out, v, x);
    forall i | i in rests
      ensures Count(rests'[i], x) == Monus(Count(origin[i], x), Count(out + [v], x))
    {
      AdvanceCount(rests[i], v, x);
    }
    if x == v {
      CountHead(rests[w], v);
      assert Count(out + [v], x) <= Count(origin[w], x);
    }
  }

  /** The streams that show the least head `v` move forward and `item` is that head, or the empty
      string when no stream is left. */
  ghost predicate LeastMoved<K>(rests: map<K, seq<Id>>, rests': map<K, seq<Id>>, v: Id, item: Id) {
    && rests'.Keys == rests.Keys
    && (forall i :: i in rests && rests[i] != [] ==> v <= rests[i][0])
    && (forall i :: i in rests ==> rests'[i] == Advance(rests[i], v))
    && item == if exists i :: i in rests && rests[i] != [] && rests[i][0] == v then v else 0
  }

  lemma UnionAdvance<K>(origin: map<K, seq<Id>>, rests: map<K, seq<Id>>, out: seq<Id>, v: Id, rests': map<K, seq<Id>>,
                        item: Id)
    requires UnionInv(origin, rests, out) && LeastMoved(rests, rests', v, item)
    ensures UnionInv(origin, rests', out + if item == 0 then [] else [item])
  {
    if exists i :: i in rests && rests[i] != [] && rests[i][0] == v {
      UnionRound(origin, rests, out, v, rests');
      HeadIsProper(rests, out, v);
    } else {
      assert rests' == rests && out + [] == out;
    }
  }

  lemma HeadIsProper<K>(rests: map<K, seq<Id>>, out: seq<Id>, v: Id)
    requires InOrder(rests, out)
    requires exists i :: i in rests && rests[i] != [] && rests[i][0] == v
    ensures v > 0
  {}

  lemma UnionEnd<K>(origin: map<K, seq<Id>>, rests: map<K, seq<Id>>, out: seq<Id>)
    requires UnionInv(origin, rests, out)
    requires forall i :: i in rests ==> rests[i] == []
    ensures UnionSpec(origin, out)
  {
    forall x: Id ensures IsLargest(origin, out, x) {
      assert UnionCounts(origin, rests, out, x);
      forall i | i in origin ensures Count(origin[i], x) <= Count(out, x) {
        assert Count(rests[i], x) == 0;
      }
    }
  }

  // ----- intersection

  ghost predicate SkipsTo(was: seq<Id>, now: seq<Id>, target: Id) {
    exists k :: SkippedBelow(was, now, k, target)
  }

  /** Of each item, every stream has read at least the copies emitted, and no more than those
      unless one of the streams has no further copy to match. */
  ghost predicate InterCounts<K>(origin: map<K, seq<Id>>, rests: map<K, seq<Id>>, out: seq<Id>, x: Id)
    requires rests.Keys == origin.Keys
  {
    && (forall i :: i in rests ==> Count(rests[i], x) + Count(out, x) <= Count(origin[i], x))
    && ((forall i :: i in rests ==> Count(rests[i], x) + Count(out, x) == Count(origin[i], x)) ||
        UsedUp(origin, out, x))
  }

  ghost predicate UsedUp<K>(origin: map<K, seq<Id>>, out: seq<Id>, x: Id) {
    exists i :: i in origin && Count(origin[i], x) == Count(out, x)
  }

  ghost predicate InterInv<K>(origin: map<K, seq<Id>>, rests: map<K, seq<Id>>, out: seq<Id>) {
    rests.Keys == origin.Keys && InOrder(rests, out) && forall x :: InterCounts(origin, rests, out, x)
  }

  /** The smallest multiplicity of `x` in the inputs is its multiplicity in the output. */
  ghost predicate IsSmallest<K>(origin: map<K, seq<Id>>, out: seq<Id>, x: Id) {
    (forall i :: i in origin ==> Count(out, x) <= Count(origin[i], x)) && UsedUp(origin, out, x)
  }

  /** The intersection of one or more bags, ascending. */
  ghost predicate InterSpec<K>(origin: map<K, seq<Id>>, out: seq<Id>) {
    Listing(out) && forall x :: IsSmallest(origin, out, x)
  }

  /** A first part of the intersection. */
  ghost predicate InterPart<K>(origin: map<K, seq<Id>>, out: seq<Id>) {
    && Listing(out)
    && forall x ::
         && (forall i :: i in origin ==> Count(out, x) <= Count(origin[i], x))
         && (Passed(out, x) ==> UsedUp(origin, out, x))
  }

  lemma InterSoFar<K>(origin: map<K, seq<Id>>, rests: map<K, seq<Id>>, out: seq<Id>)
    requires InterInv(origin, rests, out) && origin.Keys != {}
    ensures InterPart(origin, out)
  {
    forall x: Id
      ensures forall i :: i in origin ==> Count(out, x) <= Count(origin[i], x)
      ensures Passed(out, x) ==> UsedUp(origin, out, x)
    {
      assert InterCounts(origin, rests, out, x);
      if Passed(out, x) {
        var w :| w in rests;
        PassedIsRead(rests[w], out, x);
      }
    }
  }

  lemma InterStart<K>(origin: map<K, seq<Id>>)
    requires Sorted(origin)
    ensures InterInv(origin, origin, [])
  {
    forall x: Id ensures InterCounts(origin, origin, [], x) {
      assert Count([], x) == 0;
    }
  }

  ghost predicate AllMoved<K>(rests: map<K, seq<Id>>, rests': map<K, seq<Id>>, v: Id) {
    && rests'.Keys == rests.Keys
    && forall i :: i in rests ==> rests[i] != [] && rests[i][0] == v && rests'[i] == rests[i][1..]
  }

  /** All heads are equal: the common item is emitted and every stream moves forward. */
  lemma InterMatch<K>(origin: map<K, seq<Id>>, rests: map<K, seq<Id>>, out: seq<Id>, v: Id, rests': map<K, seq<Id>>)
    requires InterInv(origin, rests, out) && rests.Keys != {} && AllMoved(rests, rests', v)
    ensures InterInv(origin, rests', out + [v])
  {
    var w :| w in rests;
    EmitInOrder(rests[w], out);
    forall i | i in rests ensures Follows(rests'[i], out + [v]) {
      assert IsSuffix(rests'[i], rests[i]);
      DropFollows(rests[i], rests'[i], out, v);
    }
    forall x: Id ensures InterCounts(origin, rests', out + [v], x) {
      assert InterCounts(origin, rests, out, x);
      CountAppend(out, v, x);
      forall i | i in rests ensures
          Count(rests'[i], x) + Count(out + [v], x) == Count(rests[i], x) + Count(out, x)
      {
        CountHead(rests[i], x);
      }
      if UsedUp(origin, out, x) {
        var i :| i in origin && Count(origin[i], x) == Count(out, x);
        CountHead(rests[i], v);
        assert x != v && Count(origin[i], x) == Count(out + [v], x);
      }
    }
  }

  /** Every stream skips the items below `m`, which is the head of stream `w`. */
  lemma InterSkip<K>(origin: map<K, seq<Id>>, rests: map<K, seq<Id>>, out: seq<Id>, m: Id, w: K, rests': map<K,
                     seq<Id>>)
    requires InterInv(origin, rests, out)
    requires w in rests && rests[w] != [] && rests[w][0] == m
    requires rests'.Keys == rests.Keys
    requires forall i :: i in rests ==> SkipsTo(rests[i], rests'[i], m)
    ensures InterInv(origin, rests', out)
  {
    forall i | i in rests ensures Follows(rests'[i], out) {
      var k :| SkippedBelow(rests[i], rests'[i], k, m);
      assert IsSuffix(rests'[i], rests[i]);
      DropFollows(rests[i], rests'[i], out, 0);
    }
    forall x: Id ensures InterCounts(origin, rests', out, x) {
      assert InterCounts(origin, rests, out, x);
      forall i | i in rests
        ensures Count(rests'[i], x) <= Count(rests[i], x)
        ensures x >= m ==> Count(rests'[i], x) == Count(rests[i], x)
      {
        var k :| SkippedBelow(rests[i], rests'[i], k, m);
        CountSkipped(rests[i], rests'[i], k, m, x);
      }
      if x < m {
        CountAbsent(rests[w], x);
      }
    }
  }

  lemma InterSorted<K>(origin: map<K, seq<Id>>, rests: map<K, seq<Id>>, out: seq<Id>)
    requires InterInv(origin, rests, out)
    ensures Sorted(rests)
  {
    assert forall i :: i in rests ==> Follows(rests[i], out);
  }

  /** One round of the intersection: `item` is the common head that every stream moved past, or the
      empty string when the streams skipped to the greatest head, or did not move. */
  ghost predicate InterMoved<K>(rests: map<K, seq<Id>>, rests': map<K, seq<Id>>, item: Id) {
    if item != 0 then rests.Keys != {} && AllMoved(rests, rests', item)
    else rests' == rests || exists w :: w in rests && AllSkipped(rests, rests', w)
  }

  ghost predicate AllSkipped<K>(rests: map<K, seq<Id>>, rests': map<K, seq<Id>>, w: K)
    requires w in rests
  {
    && rests'.Keys == rests.Keys && rests[w] != []
    && forall i :: i in rests ==> SkipsTo(rests[i], rests'[i], rests[w][0])
  }

  lemma InterMove<K>(origin: map<K, seq<Id>>, rests: map<K, seq<Id>>, out: seq<Id>, item: Id, rests': map<K, seq<Id>>)
    requires InterInv(origin, rests, out) && InterMoved(rests, rests', item)
    ensures InterInv(origin, rests', out + if item == 0 then [] else [item])
  {
    if item != 0 {
      InterMatch(origin, rests, out, item, rests');
    } else {
      if rests' != rests {
        var w :| w in rests && AllSkipped(rests, rests', w);
        InterSkip(origin, rests, out, rests[w][0], w, rests');
      }
      assert out + [] == out;
    }
  }

  lemma InterEnd<K>(origin: map<K, seq<Id>>, rests: map<K, seq<Id>>, out: seq<Id>, w: K)
    requires InterInv(origin, rests, out)
    requires w in rests && rests[w] == []
    ensures InterSpec(origin, out)
  {
    forall x: Id ensures IsSmallest(origin, out, x) {
      assert InterCounts(origin, rests, out, x);
      assert Count(rests[w], x) == 0;
    }
  }

  // ----- difference

  ghost predicate DiffCounts(base0: seq<Id>, sub0: seq<Id>, base: seq<Id>, sub: seq<Id>, out: seq<Id>, x: Id) {
    Count(out, x) + Monus(Count(base, x), Count(sub, x)) == Monus(Count(base0, x), Count(sub0, x))
  }

  ghost predicate DiffInv(base0: seq<Id>, sub0: seq<Id>, base: seq<Id>, sub: seq<Id>, out: seq<Id>) {
    Listing(out) && Follows(base, out) && Ascending(sub) && forall x :: DiffCounts(base0, sub0, base, sub, out, x)
  }

  /** The difference of two bags, ascending. */
  ghost predicate DiffSpec(base0: seq<Id>, sub0: seq<Id>, out: seq<Id>) {
    Listing(out) && forall x :: Count(out, x) == Monus(Count(base0, x), Count(sub0, x))
  }

  /** A first part of the difference. */
  ghost predicate DiffPart(base0: seq<Id>, sub0: seq<Id>, out: seq<Id>) {
    && Listing(out)
    && forall x ::
         && Count(out, x) <= Monus(Count(base0, x), Count(sub0, x))
         && (Passed(out, x) ==> Count(out, x) == Monus(Count(base0, x), Count(sub0, x)))
  }

  lemma DiffSoFar(base0: seq<Id>, sub0: seq<Id>, base: seq<Id>, sub: seq<Id>, out: seq<Id>)
    requires DiffInv(base0, sub0, base, sub, out)
    ensures DiffPart(base0, sub0, out)
  {
    forall x: Id
      ensures Count(out, x) <= Monus(Count(base0, x), Count(sub0, x))
      ensures Passed(out, x) ==> Count(out, x) == Monus(Count(base0, x), Count(sub0, x))
    {
      assert DiffCounts(base0, sub0, base, sub, out, x);
      if Passed(out, x) {
        PassedIsRead(base, out, x);
      }
    }
  }

  lemma DiffStart(base: seq<Id>, sub: seq<Id>)
    requires Ascending(base) && Proper(base) && Ascending(sub)
    ensures DiffInv(base, sub, base, sub, [])
  {}

  lemma DiffCancel(base0: seq<Id>, sub0: seq<Id>, base: seq<Id>, sub: seq<Id>, out: seq<Id>)
    requires DiffInv(base0, sub0, base, sub, out)
    requires base != [] && sub != [] && base[0] == sub[0]
    ensures DiffInv(base0, sub0, base[1..], sub[1..], out)
  {
    assert IsSuffix(base[1..], base);
    DropFollows(base, base[1..], out, base[0]);
    forall x: Id ensures DiffCounts(base0, sub0, base[1..], sub[1..], out, x) {
      assert DiffCounts(base0, sub0, base, sub, out, x);
      CountHead(base, x);
      CountHead(sub, x);
    }
  }

  lemma DiffEmit(base0: seq<Id>, sub0: seq<Id>, base: seq<Id>, sub: seq<Id>, out: seq<Id>)
    requires DiffInv(base0, sub0, base, sub, out)
    requires base != [] && (sub != [] ==> base[0] < sub[0])
    ensures DiffInv(base0, sub0, base[1..], sub, out + [base[0]])
  {
    EmitInOrder(base, out);
    assert IsSuffix(base[1..], base);
    DropFollows(base, base[1..], out, base[0]);
    forall x: Id ensures DiffCounts(base0, sub0, base[1..], sub, out + [base[0]], x) {
      assert DiffCounts(base0, sub0, base, sub, out, x);
      CountHead(base, x);
      CountAppend(out, base[0], x);
      if x == base[0] {
        CountAbsent(sub, x);
      }
    }
  }

  lemma DiffSkip(base0: seq<Id>, sub0: seq<Id>, base: seq<Id>, sub: seq<Id>, out: seq<Id>, k: nat, sub': seq<Id>)
    requires DiffInv(base0, sub0, base, sub, out)
    requires base != [] && SkippedBelow(sub, sub', k, base[0])
    ensures DiffInv(base0, sub0, base, sub', out)
  {
    forall x: Id ensures DiffCounts(base0, sub0, base, sub', out, x) {
      assert DiffCounts(base0, sub0, base, sub, out, x);
      CountSkipped(sub, sub', k, base[0], x);
      if x < base[0] {
        CountAbsent(base, x);
      }
    }
  }

  /** One round of the difference.  Either `item` is the base head, which the subtracted stream does
      not contain, or it is the empty string and the round cancelled two equal heads, skipped in the
      subtracted stream, or did not move. */
  ghost predicate DiffMoved(base: seq<Id>, sub: seq<Id>, base': seq<Id>, sub': seq<Id>, item: Id) {
    if item != 0 then
      base != [] && base[0] == item && (sub != [] ==> item < sub[0]) && base' == base[1..] && sub' == sub
    else
      || (base' == base && sub' == sub)
      || (base != [] && sub != [] && base[0] == sub[0] && base' == base[1..] && sub' == sub[1..])
      || (base != [] && base' == base && SkipsTo(sub, sub', base[0]))
  }

  lemma DiffMove(base0: seq<Id>, sub0: seq<Id>, base: seq<Id>, sub: seq<Id>, out: seq<Id>, item: Id, base': seq<Id>,
                 sub': seq<Id>)
    requires DiffInv(base0, sub0, base, sub, out) && DiffMoved(base, sub, base', sub', item)
    ensures DiffInv(base0, sub0, base', sub', out + if item == 0 then [] else [item])
  {
    assert out + [] == out;
    if item != 0 {
      DiffEmit(base0, sub0, base, sub, out);
    } else if base' == base && sub' == sub {
    } else if base != [] && sub != [] && base[0] == sub[0] && base' == base[1..] && sub' == sub[1..] {
      DiffCancel(base0, sub0, base, sub, out);
    } else {
      var k :| SkippedBelow(sub, sub', k, base[0]);
      DiffSkip(base0, sub0, base, sub, out, k, sub');
    }
  }

  /** Once the subtracted stream is exhausted the rest of the base is emitted as it is. */
  lemma DiffTail(base0: seq<Id>, sub0: seq<Id>, items: seq<Id>, base: seq<Id>, out: seq<Id>)
    requires DiffInv(base0, sub0, items + base, [], out)
    ensures DiffInv(base0, sub0, base, [], out + items)
  {
    EmitAll(items, base, out);
    forall x: Id ensures DiffCounts(base0, sub0, base, [], out + items, x) {
      assert DiffCounts(base0, sub0, items + base, [], out, x);
      CountConcat(items, base, x);
      CountConcat(out, items, x);
    }
  }

  lemma {:induction false} EmitAll(items: seq<Id>, base: seq<Id>, out: seq<Id>)
    requires Listing(out) && Follows(items + base, out)
    ensures Listing(out + items) && Follows(base, out + items)
    decreases |items|
  {
    if items == [] {
      assert items + base == base && out + items == out;
    } else {
      var rest := items + base;
      assert rest[1..] == items[1..] + base;
      assert IsSuffix(rest[1..], rest);
      EmitInOrder(rest, out);
      DropFollows(rest, rest[1..], out, rest[0]);
      EmitAll(items[1..], base, out + [rest[0]]);
      assert (out + [rest[0]]) + items[1..] == out + items;
    }
  }

  lemma DiffEnd(base0: seq<Id>, sub0: seq<Id>, sub: seq<Id>, out: seq<Id>)
    requires DiffInv(base0, sub0, [], sub, out)
    ensures DiffSpec(base0, sub0, out)
  {
    forall x: Id ensures Count(out, x) == Monus(Count(base0, x), Count(sub0, x)) {
      assert DiffCounts(base0, sub0, [], sub, out, x);
    }
  }
}
