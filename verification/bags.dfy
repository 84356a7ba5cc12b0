/** Bags of identifiers: what the operands of a set operation hold, and their one sorted list. */
module Bags {
  import opened Streams
  import opened Merge

  type Bag = multiset<Id>

  predicate IsLeastIn(x: Id, m: Bag) {
    x in m && forall y | y in m :: x <= y
  }

  lemma {:induction false} BagHasLeast(m: Bag) returns (x: Id)
    requires m != multiset{}
    ensures IsLeastIn(x, m)
    decreases |m|
  {
    var w :| w in m;
    var rest := m - multiset{w};
    x := w;
    if rest != multiset{} {
      var z := BagHasLeast(rest);
      x := if z < w then z else w;
    }
    forall y | y in m ensures x <= y {
      assert y == w || y in rest;
    }
  }

  lemma SortedFrom(x: Id, rest: seq<Id>, m: Bag)
    requires IsLeastIn(x, m) && Ascending(rest) && multiset(rest) == m - multiset{x}
    ensures Ascending([x] + rest) && multiset([x] + rest) == m
  {
    forall i | 0 <= i < |rest| ensures x <= rest[i] {
      assert rest[i] in multiset(rest);
    }
  }

  predicate IsListOf(s: seq<Id>, m: Bag) {
    Ascending(s) && multiset(s) == m
  }

  lemma {:induction false} BagHasList(m: Bag) returns (s: seq<Id>)
    ensures IsListOf(s, m)
    decreases |m|
  {
    if m == multiset{} {
      s := [];
    } else {
      var x := BagHasLeast(m);
      var rest := BagHasList(m - multiset{x});
      SortedFrom(x, rest, m);
      s := [x] + rest;
    }
  }

  /** The items of the bag in ascending order. */
  ghost function SortedList(m: Bag): (s: seq<Id>)
    ensures Ascending(s) && multiset(s) == m
  {
    assert exists s :: IsListOf(s, m) by { var s := BagHasList(m); }
    var s :| IsListOf(s, m);
    s
  }

  /** An ascending first part of the bag: nothing beyond it, and all that sorts before its last item. */
  ghost predicate IsPartOf(out: seq<Id>, m: Bag) {
    Ascending(out) && forall x :: Count(out, x) <= m[x] && (Passed(out, x) ==> Count(out, x) == m[x])
  }

  ghost predicate IsWithin(out: seq<Id>, list: seq<Id>, x: Id) {
    Count(out, x) <= Count(list, x) && (Passed(out, x) ==> Count(out, x) == Count(list, x))
  }

  /** An ascending first part of a bag is the beginning of its sorted list. */
  lemma PartIsPrefix(out: seq<Id>, m: Bag)
    requires IsPartOf(out, m)
    ensures out <= SortedList(m)
    ensures multiset(out) == m ==> out == SortedList(m)
  {
    var list := SortedList(m);
    forall x ensures IsWithin(out, list, x) {
      assert Count(list, x) == m[x];
    }
    Begins(out, list);
    if multiset(out) == m {
      assert |out| == |multiset(out)| == |multiset(list)| == |list|;
    }
  }

  lemma {:induction false} Begins(out: seq<Id>, list: seq<Id>)
    requires Ascending(out) && Ascending(list)
    requires forall x :: IsWithin(out, list, x)
    ensures out <= list
    decreases |out|
  {
    if out != [] {
      SameHead(out, list);
      forall x ensures IsWithin(out[1..], list[1..], x) {
        TailIsWithin(out, list, x);
      }
      Begins(out[1..], list[1..]);
      assert out == [out[0]] + out[1..] && list == [list[0]] + list[1..];
    }
  }

  lemma TailIsWithin(out: seq<Id>, list: seq<Id>, x: Id)
    requires out != [] && list != [] && out[0] == list[0] && IsWithin(out, list, x)
    ensures IsWithin(out[1..], list[1..], x)
  {
    CountHead(out, x);
    CountHead(list, x);
  }

  lemma SameHead(out: seq<Id>, list: seq<Id>)
    requires Ascending(out) && Ascending(list) && out != []
    requires forall x :: IsWithin(out, list, x)
    ensures list != [] && list[0] == out[0]
  {
    CountPresent(out, out[0]);
    CountPresent(list, out[0]);
    assert IsWithin(out, list, out[0]);
    assert out[0] in list;
    var i :| 0 <= i < |list| && list[i] == out[0];
    CountPresent(list, list[0]);
    assert IsWithin(out, list, list[0]);
    if list[0] < out[0] {
      CountAbsent(out, list[0]);
      assert false;
    }
  }

  // ----- the set operations on bags

  /** The largest multiplicities. */
  ghost function Join(bags: seq<Bag>): Bag {
    if bags == [] then multiset{}
    else
      var k := Join(bags[..|bags| - 1]);
      k + (bags[|bags| - 1] - k)
  }

  lemma {:induction false} JoinIsLargest(bags: seq<Bag>, x: Id)
    ensures forall i :: 0 <= i < |bags| ==> bags[i][x] <= Join(bags)[x]
    ensures Join(bags)[x] > 0 ==> exists i :: 0 <= i < |bags| && bags[i][x] == Join(bags)[x]
  {
    if bags != [] {
      var n := |bags| - 1;
      var k := Join(bags[..n]);
      JoinIsLargest(bags[..n], x);
      assert Join(bags)[x] == if k[x] < bags[n][x] then bags[n][x] else k[x];
      forall i | 0 <= i < |bags| ensures bags[i][x] <= Join(bags)[x] {
        assert i < n ==> bags[i] == bags[..n][i];
      }
      if Join(bags)[x] > 0 && k[x] >= bags[n][x] {
        var i :| 0 <= i < n && bags[..n][i][x] == k[x];
        assert bags[i][x] == k[x];
      }
    }
  }

  /** The smallest multiplicities. */
  ghost function Meet(bags: seq<Bag>): Bag
    requires bags != []
  {
    if |bags| == 1 then bags[0] else Meet(bags[..|bags| - 1]) * bags[|bags| - 1]
  }

  lemma {:induction false} MeetIsSmallest(bags: seq<Bag>, x: Id)
    requires bags != []
    ensures forall i :: 0 <= i < |bags| ==> Meet(bags)[x] <= bags[i][x]
    ensures exists i :: 0 <= i < |bags| && bags[i][x] == Meet(bags)[x]
  {
    if |bags| == 1 {
      assert bags[0][x] == Meet(bags)[x];
    } else {
      var n := |bags| - 1;
      var k := Meet(bags[..n]);
      MeetIsSmallest(bags[..n], x);
      assert Meet(bags)[x] == if k[x] < bags[n][x] then k[x] else bags[n][x];
      forall i | 0 <= i < |bags| ensures Meet(bags)[x] <= bags[i][x] {
        assert i < n ==> bags[i] == bags[..n][i];
      }
      var i :| 0 <= i < n && bags[..n][i][x] == k[x];
      assert bags[i][x] == k[x] && bags[n][x] == bags[n][x];
      if k[x] >= bags[n][x] {
        assert bags[n][x] == Meet(bags)[x];
      }
    }
  }
}
