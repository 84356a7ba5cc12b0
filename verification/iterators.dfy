/** Iterators over tuples (tuple_iterators.go): the one that filters by condition, and the one that
    merges sorted iterators. */
module Iterators {
  import opened Options
  import opened TupleMerge

  // ----- the iterator below

  /** Yields its items one by one; a broken one fails where it would be done. */
  class StaticIterator {
    var items: seq<Item>
    const broken: Option<ErrorCode>

    constructor (items: seq<Item>, broken: Option<ErrorCode>)
      ensures this.items == items && this.broken == broken
    {
      this.items, this.broken := items, broken;
    }

    function AtEnd(): Answer {
      if broken.Some? then Fails(broken.value) else Done
    }

    method Head() returns (r: Answer)
      ensures r == if items == [] then AtEnd() else Yields(items[0])
    {
      r := if items == [] then AtEnd() else Yields(items[0]);
    }

    method Next() returns (r: Answer)
      modifies this`items
      ensures r == if old(items) == [] then AtEnd() else Yields(old(items)[0])
      ensures items == if old(items) == [] then [] else old(items)[1..]
    {
      if items == [] {
        return AtEnd();
      }
      r := Yields(items[0]);
      items := items[1..];
    }
  }

  // ----- filtering by condition

  datatype Verdict = Met | NotMet | Unevaluable(error: ErrorCode)

  type Filter = Item -> Verdict

  /** The items that meet their condition, in order. */
  function Kept(filter: Filter, items: seq<Item>): seq<Item> {
    if items == [] then []
    else Kept(filter, items[..|items| - 1]) + if filter(items[|items| - 1]).Met? then [items[|items| - 1]] else []
  }

  /** The last error of the filter. */
  function LastError(filter: Filter, items: seq<Item>): Option<ErrorCode> {
    if items == [] then None
    else
      var v := filter(items[|items| - 1]);
      if v.Unevaluable? then Some(v.error) else LastError(filter, items[..|items| - 1])
  }

  lemma {:induction false} KeptConcat(filter: Filter, a: seq<Item>, b: seq<Item>)
    ensures Kept(filter, a + b) == Kept(filter, a) + Kept(filter, b)
  {
    if b == [] {
      assert a + b == a;
    } else {
      assert (a + b)[..|a + b| - 1] == a + b[..|b| - 1];
      KeptConcat(filter, a, b[..|b| - 1]);
    }
  }

  lemma KeptNext(filter: Filter, passed: seq<Item>, x: Item)
    ensures Kept(filter, passed + [x]) == Kept(filter, passed) + if filter(x).Met? then [x] else []
    ensures LastError(filter, passed + [x]) == if filter(x).Unevaluable? then Some(filter(x).error)
            else LastError(filter, passed)
  {
    assert (passed + [x])[..|passed|] == passed;
  }

  /** The item at `i` is the last one whose condition cannot be evaluated. */
  ghost predicate IsLastUnevaluable(filter: Filter, items: seq<Item>, i: nat) {
    && i < |items| && filter(items[i]).Unevaluable?
    && forall j :: i < j < |items| ==> !filter(items[j]).Unevaluable?
  }

  /** There is no last error if and only if every condition can be evaluated, and otherwise it is the error of the
      last one that cannot. */
  lemma {:induction false} LastErrorIs(filter: Filter, items: seq<Item>)
    ensures LastError(filter, items) == None <==> forall x :: x in items ==> !filter(x).Unevaluable?
    ensures forall i: nat :: IsLastUnevaluable(filter, items, i) ==>
              LastError(filter, items) == Some(filter(items[i]).error)
    ensures LastError(filter, items).Some? ==> exists i: nat :: IsLastUnevaluable(filter, items, i)
    decreases |items|
  {
    if items != [] {
      var last := |items| - 1;
      LastErrorIs(filter, items[..last]);
      assert items == items[..last] + [items[last]];
      if filter(items[last]).Unevaluable? {
        assert IsLastUnevaluable(filter, items, last);
      } else if i: nat :| IsLastUnevaluable(filter, items[..last], i) {
        assert IsLastUnevaluable(filter, items, i);
      }
      forall i: nat | IsLastUnevaluable(filter, items, i) && i < last
        ensures IsLastUnevaluable(filter, items[..last], i)
      {
        forall j | i < j < last ensures !filter(items[..last][j]).Unevaluable? {
          assert items[..last][j] == items[j];
        }
      }
    }
  }

  /** What is kept is empty if and only if no item meets its condition. */
  lemma {:induction false} NothingKept(filter: Filter, items: seq<Item>)
    ensures Kept(filter, items) == [] <==> forall x :: x in items ==> !filter(x).Met?
    decreases |items|
  {
    if items != [] {
      var last := |items| - 1;
      NothingKept(filter, items[..last]);
      assert items == items[..last] + [items[last]];
    }
  }

  /** How a read of the items ends: with the failure of the iterator below; and otherwise with the error of the last
      condition that could not be evaluated, unless some condition was met. */
  ghost predicate IsEnd(filter: Filter, items: seq<Item>, broken: Option<ErrorCode>, r: Answer) {
    if broken.Some? then r == Fails(broken.value)
    else if (exists x :: x in items && filter(x).Met?) || forall x :: x in items ==> !filter(x).Unevaluable? then
      r == Done
    else exists i: nat :: IsLastUnevaluable(filter, items, i) && r == Fails(filter(items[i]).error)
  }

  lemma EndIs(filter: Filter, items: seq<Item>, broken: Option<ErrorCode>, r: Answer)
    requires r == if broken.Some? then Fails(broken.value)
                  else if Kept(filter, items) == [] && LastError(filter, items).Some? then
                    Fails(LastError(filter, items).value)
                  else Done
    ensures IsEnd(filter, items, broken, r)
  {
    LastErrorIs(filter, items);
    NothingKept(filter, items);
    if broken.None? && LastError(filter, items).Some? {
      var i: nat :| IsLastUnevaluable(filter, items, i);
      assert items[i] in items;
    }
  }

  class ConditionsFilteredIterator {
    const iter: StaticIterator
    const filter: Filter
    var lastError: Option<ErrorCode>
    var onceValid: bool
    /** What was taken from the iterator below, and what was yielded of it. */
    ghost var passed: seq<Item>
    ghost var yielded: seq<Item>
    ghost var surfaced: bool

    ghost predicate Valid()
      reads this, iter
    {
      && yielded == Kept(filter, passed)
      && lastError == (if surfaced then None else LastError(filter, passed))
      && (yielded != [] ==> onceValid)
      && (onceValid ==> yielded != [] || (iter.items != [] && filter(iter.items[0]).Met?))
      && (surfaced ==> iter.items == [] && yielded == [])
    }

    /** All that was ever there to yield. */
    ghost function Everything(): seq<Item>
      reads this, iter
    {
      passed + iter.items
    }

    constructor (iter: StaticIterator, filter: Filter)
      ensures Valid() && this.iter == iter && this.filter == filter
      ensures passed == [] && yielded == [] && !surfaced && lastError == None && !onceValid
    {
      this.iter, this.filter := iter, filter;
      lastError, onceValid, passed, yielded, surfaced := None, false, [], [], false;
    }

    /** What is answered at the end: the error of the filter, once, if nothing met its condition. */
    ghost function AnswerAtEnd(): Answer
      reads this, iter
    {
      if iter.broken.Some? then Fails(iter.broken.value)
      else if Kept(filter, Everything()) == [] && LastError(filter, Everything()).Some? && !surfaced then
        Fails(LastError(filter, Everything()).value)
      else Done
    }

    /** Takes one item from the iterator below and evaluates its condition. */
    method Take() returns (t: Answer, v: Verdict)
      requires Valid()
      modifies this`lastError, this`onceValid, this`passed, this`yielded, iter`items
      ensures Valid() && Everything() == old(Everything())
      ensures old(iter.items) == [] ==>
                && t == iter.AtEnd() && iter.items == [] && yielded == old(yielded)
                && lastError == old(lastError) && onceValid == old(onceValid)
      ensures old(iter.items) != [] ==>
              t == Yields(old(iter.items)[0]) && v == filter(t.item) && iter.items == old(iter.items)[1..]
      ensures old(iter.items) != [] ==> yielded == old(yielded) + if v.Met? then [t.item] else []
    {
      ghost var rest := iter.items;
      t := iter.Next();
      v := NotMet;
      if t.Yields? {
        v := filter(t.item);
        EverythingShifts(passed, rest);
        KeptNext(filter, passed, t.item);
        passed := passed + [t.item];
        if v.Unevaluable? {
          lastError := Some(v.error);
        } else if v.Met? {
          onceValid := true;
          yielded := yielded + [t.item];
        }
      }
    }

    method Next() returns (r: Answer)
      requires Valid()
      modifies this`lastError, this`onceValid, this`passed, this`yielded, this`surfaced, iter`items
      ensures Valid() && Everything() == old(Everything())
      ensures r.Yields? <==> old(Kept(filter, iter.items)) != []
      ensures r.Yields? ==> yielded == old(yielded) + [r.item] && r.item == old(Kept(filter, iter.items))[0]
      ensures !r.Yields? ==> r == old(AnswerAtEnd()) && iter.items == [] && yielded == old(yielded)
      ensures surfaced <==> old(surfaced) || (r.Fails? && iter.broken.None?)
    {
      while true
        invariant Valid() && Everything() == old(Everything()) && yielded == old(yielded) && surfaced == old(surfaced)
        invariant Kept(filter, iter.items) == old(Kept(filter, iter.items))
        decreases |iter.items|
      {
        KeptFirst(filter, iter.items);
        var t, v := Take();
        if !t.Yields? {
          AtEndMeans();
          if t.Fails? || onceValid || lastError.None? {
            return t;
          }
          r := Fails(lastError.value);
          lastError, surfaced := None, true;
          return;
        }
        if v.Met? {
          return t;
        }
      }
    }

    /** When nothing is left, all has passed. */
    lemma AtEndMeans()
      requires Valid() && iter.items == []
      ensures AnswerAtEnd() ==
        if iter.broken.Some? then Fails(iter.broken.value) else if !onceValid &&
            lastError.Some? then Fails(lastError.value) else Done
    {
      assert Everything() == passed;
    }

    /** Drops the item just looked at, whose condition is not met. */
    method Drop(x: Item) returns (t: Answer)
      requires Valid() && iter.items != [] && iter.items[0] == x && !filter(x).Met?
      modifies this`lastError, this`passed, iter`items
      ensures Valid() && Everything() == old(Everything()) && iter.items == old(iter.items)[1..] && t == Yields(x)
    {
      ghost var rest := iter.items;
      if filter(x).Unevaluable? {
        lastError := Some(filter(x).error);
      }
      t := iter.Next();
      EverythingShifts(passed, rest);
      KeptNext(filter, passed, x);
      passed := passed + [x];
    }

    /** Looks ahead without yielding: Next then answers the same. */
    method Head() returns (r: Answer)
      requires Valid()
      modifies this`lastError, this`onceValid, this`passed, iter`items
      ensures Valid() && Everything() == old(Everything())
      ensures Kept(filter, iter.items) == old(Kept(filter, iter.items))
      ensures r.Yields? <==> Kept(filter, iter.items) != []
      ensures r.Yields? ==> Kept(filter, iter.items)[0] == r.item
      ensures !r.Yields? ==> r == old(AnswerAtEnd())
    {
      while true
        invariant Valid() && Everything() == old(Everything())
        invariant Kept(filter, iter.items) == old(Kept(filter, iter.items))
        decreases |iter.items|
      {
        KeptFirst(filter, iter.items);
        var t := iter.Head();
        if !t.Yields? {
          AtEndMeans();
          if t.Fails? || onceValid || lastError.None? {
            return t;
          }
          return Fails(lastError.value);
        }
        if filter(t.item).Met? {
          onceValid := true;
          return t;
        }
        var dropped := Drop(t.item);
        if !dropped.Yields? {
          return dropped;
        }
      }
    }
  }

  lemma EverythingShifts(passed: seq<Item>, rest: seq<Item>)
    requires rest != []
    ensures passed + rest == (passed + [rest[0]]) + rest[1..]
  {}

  lemma KeptFirst(filter: Filter, items: seq<Item>)
    ensures items == [] ==> Kept(filter, items) == []
    ensures items != [] ==>
            Kept(filter, items) == (if filter(items[0]).Met? then [items[0]] else []) + Kept(filter, items[1..])
  {
    if items != [] {
      assert items == [items[0]] + items[1..];
      KeptConcat(filter, [items[0]], items[1..]);
      KeptNext(filter, [], items[0]);
    }
  }

  // ----- merging sorted iterators

  ghost predicate Aligns(pending: seq<Input>, slots: seq<Input>) {
    WithoutNil(pending) == WithoutNil(slots)
  }

  /** A look at a sound state tells what is next and keeps it sound. */
  lemma LookKeeps(r: Answer, pending: seq<Input>, slots: seq<Input>, last: Option<Item>, pending': seq<Input>)
    requires IsLook(r, pending, last, pending') && Aligns(pending, slots) && IsSound(slots, last)
    ensures var settled := SettleAll(slots, last);
            && Aligns(pending', settled) && r == NextAnswer(settled, last) && IsExact(r, KeysToCome(settled, last))
            && IsSound(settled, last) && KeysToCome(settled, last) == KeysToCome(slots, last)
  {
    SoundLook(slots, last);
    NextTogether(pending, slots, last);
  }

  /** Next answers as the merge of the inputs that are not done, and leaves what that leaves. */
  ghost predicate IsStep(r: Answer, pending: seq<Input>, last: Option<Item>, pending': seq<Input>,
                         last': Option<Item>) {
    var inputs := WithoutNil(pending);
    && r == NextAnswer(inputs, last)
    && (!LookFor(inputs, last).NotInOrder? ==> pending' == NextInputs(inputs, last))
    && last' == if r.Yields? then Some(r.item) else last
  }

  /** Head answers as Next would, and has skipped what is skipped for that. */
  ghost predicate IsLook(r: Answer, pending: seq<Input>, last: Option<Item>, pending': seq<Input>) {
    var inputs := WithoutNil(pending);
    && r == NextAnswer(inputs, last)
    && (!LookFor(inputs, last).NotInOrder? ==> pending' == SettleAll(inputs, last))
  }

  class OrderedCombinedIterator {
    var pending: seq<Input>
    var lastHead: Option<Item>
    var lastYielded: Option<Item>
    /** The inputs, those that are done in their places. */
    ghost var slots: seq<Input>

    constructor (inputs: seq<seq<Item>>)
      ensures |pending| == |inputs| && forall i :: 0 <= i < |inputs| ==> pending[i] == Input(inputs[i])
      ensures lastHead == None && lastYielded == None && slots == pending && Aligned()
    {
      pending := seq(|inputs|, i requires 0 <= i < |inputs| => Input(inputs[i]));
      slots := seq(|inputs|, i requires 0 <= i < |inputs| => Input(inputs[i]));
      lastHead, lastYielded := None, None;
    }

    ghost predicate Aligned()
      reads this
    {
      Aligns(pending, slots)
    }

    /** Nothing will be lost, and a head that is remembered is what Next will yield. */
    ghost predicate Exact()
      reads this
    {
      && Aligned() && IsSound(slots, lastYielded)
      && (lastHead.Some? ==> NextAnswer(slots, lastYielded) == Yields(lastHead.value))
    }

    ghost function ToCome(): set<nat>
      reads this
    {
      KeysToCome(slots, lastYielded)
    }

    /** Inputs that repeat the last key are moved on, and those that are done are forgotten. */
    method FindHead() returns (r: Found)
      modifies this`pending
      ensures r == LookFor(WithoutNil(old(pending)), lastYielded)
      ensures !r.NotInOrder? ==> pending == SettleAll(WithoutNil(old(pending)), lastYielded)
    {
      var inputs := WithoutNil(pending);
      pending := inputs;
      r := NoneLeft;
      for i := 0 to |inputs|
        invariant |pending| == |inputs| && !r.NotInOrder? && r == LookFor(inputs[..i], lastYielded)
        invariant forall j :: 0 <= j < |inputs| ==>
                  pending[j] == if j < i then AfterSettle(inputs[j], lastYielded) else inputs[j]
      {
        LookForNext(inputs, lastYielded, i);
        if pending[i].Input? {
          match Settle(pending[i].items, lastYielded)
          case OutOfOrder =>
            LookForStops(inputs, lastYielded, i + 1);
            return NotInOrder;
          case Exhausted =>
            pending := pending[i := Nil];
          case Ready(head, rest) =>
            pending := pending[i := rest];
            if r.NoneLeft? || HeadOf(inputs[r.idx], lastYielded).key > head.key {
              r := At(i);
            }
        }
      }
      assert inputs[..|inputs|] == inputs;
    }

    method Next() returns (r: Answer)
      modifies this`pending, this`lastHead, this`lastYielded, this`slots
      ensures IsStep(r, old(pending), old(lastYielded), pending, lastYielded)
      ensures lastHead == None || lastHead == old(lastHead)
      ensures old(Aligned()) ==>
                && r == old(NextAnswer(slots, lastYielded))
                && (r.Yields? ==> Aligned() && lastHead == None && slots == old(NextInputs(slots, lastYielded)))
      ensures old(Exact()) ==> Exact() && IsExact(r, old(ToCome()))
      ensures old(Exact()) && r.Yields? ==> ToCome() == old(ToCome()) - {r.item.key}
    {
      if Aligned() {
        NextTogether(pending, slots, lastYielded);
      }
      if IsSound(slots, lastYielded) {
        SoundNext(slots, lastYielded);
      }
      ghost var after := NextInputs(slots, lastYielded);
      r := Advance();
      slots := after;
    }

    method Advance() returns (r: Answer)
      modifies this`pending, this`lastHead, this`lastYielded
      ensures IsStep(r, old(pending), old(lastYielded), pending, lastYielded)
      ensures if r.Yields? then lastHead == None else lastHead == None || lastHead == old(lastHead)
    {
      var found := FindHead();
      if found.NotInOrder? {
        return Fails(NOT_IN_ORDER);
      }
      if found.NoneLeft? {
        return Done;
      }
      lastHead := None;
      var rest := pending[found.idx].items;
      if rest == [] {
        return Done;
      }
      pending := pending[found.idx := Input(rest[1..])];
      lastYielded := Some(rest[0]);
      r := Yields(rest[0]);
    }

    method Head() returns (r: Answer)
      modifies this`pending, this`lastHead, this`slots
      ensures if old(lastHead).Some? then r == Yields(old(lastHead).value) && pending == old(pending)
              else IsLook(r, old(pending), lastYielded, pending)
      ensures lastHead == if r.Yields? then Some(r.item) else None
      ensures old(Exact()) ==> Exact() && ToCome() == old(ToCome()) && IsExact(r, ToCome())
    {
      ghost var sound := IsSound(slots, lastYielded);
      if lastHead.Some? {
        if sound {
          SoundLook(slots, lastYielded);
        }
        return Yields(lastHead.value);
      }
      ghost var before := pending;
      r := LookAhead();
      lastHead := if r.Yields? then Some(r.item) else None;
      if sound && Aligns(before, slots) {
        LookKeeps(r, before, slots, lastYielded, pending);
      }
      slots := SettleAll(slots, lastYielded);
    }

    method LookAhead() returns (r: Answer)
      modifies this`pending
      ensures IsLook(r, old(pending), lastYielded, pending)
    {
      var found := FindHead();
      if found.NotInOrder? {
        return Fails(NOT_IN_ORDER);
      }
      if found.NoneLeft? {
        return Done;
      }
      var rest := pending[found.idx].items;
      r := if rest == [] then Done else Yields(rest[0]);
    }
  }

  // ----- whole runs, with looks ahead anywhere

  /** Reading to the end yields exactly what meets its condition, in order, and then the last error of the
      filter if that was nothing. */
  method ReadFiltered(it: ConditionsFilteredIterator) returns (out: seq<Item>, last: Answer)
    requires it.Valid() && it.passed == [] && !it.surfaced
    modifies it, it.iter`items
    ensures out == Kept(it.filter, old(it.iter.items))
    ensures last == if it.iter.broken.Some? then Fails(it.iter.broken.value)
                    else if out == [] && LastError(it.filter, old(it.iter.items)).Some?
                        then Fails(LastError(it.filter, old(it.iter.items)).value)
                    else Done
    ensures IsEnd(it.filter, old(it.iter.items), it.iter.broken, last)
  {
    assert it.Everything() == it.iter.items;
    ghost var items := it.iter.items;
    out, last := [], Done;
    while true
      invariant it.Valid() && it.Everything() == old(it.iter.items) && it.yielded == out && !it.surfaced
      decreases |Kept(it.filter, it.iter.items)|
    {
      MaybePeek(it);
      ghost var passed, rest := it.passed, it.iter.items;
      var r := it.Next();
      KeptSplit(it.filter, passed, rest);
      KeptSplit(it.filter, it.passed, it.iter.items);
      if !r.Yields? {
        last := r;
        EndIs(it.filter, items, it.iter.broken, last);
        return;
      }
      out := out + [r.item];
    }
  }

  /** A look ahead, or none. */
  method MaybePeek(it: ConditionsFilteredIterator)
    requires it.Valid()
    modifies it`lastError, it`onceValid, it`passed, it.iter`items
    ensures it.Valid() && it.Everything() == old(it.Everything())
    ensures Kept(it.filter, it.iter.items) == old(Kept(it.filter, it.iter.items))
  {
    var looks := *;
    if looks {
      var head := it.Head();
    }
  }

  lemma KeptSplit(filter: Filter, passed: seq<Item>, rest: seq<Item>)
    ensures Kept(filter, passed + rest) == Kept(filter, passed) + Kept(filter, rest)
  {
    KeptConcat(filter, passed, rest);
  }

  /** Reading inputs that are merged without loss yields each of their keys once, in order, wherever one
      looks ahead in between. */
  method ReadMerged(it: OrderedCombinedIterator) returns (out: seq<Item>)
    requires it.Exact() && it.lastYielded.None?
    modifies it
    ensures StrictlyByKey(out) && KeysOf(out) == old(it.ToCome())
  {
    out := [];
    while true
      invariant it.Exact() && StrictlyByKey(out)
      invariant it.lastYielded == if out == [] then None else Some(out[|out| - 1])
      invariant KeysOf(out) + it.ToCome() == old(it.ToCome())
      decreases it.ToCome()
    {
      MaybeLook(it);
      ghost var left := it.ToCome();
      SoundStep(it.slots, it.lastYielded);
      var r := it.Next();
      if !r.Yields? {
        return;
      }
      OneMoreYielded(out, left, r.item);
      out := out + [r.item];
    }
  }

  /** A look ahead, or none. */
  method MaybeLook(it: OrderedCombinedIterator)
    requires it.Exact()
    modifies it`pending, it`lastHead, it`slots
    ensures it.Exact() && it.ToCome() == old(it.ToCome())
  {
    var looks := *;
    if looks {
      var head := it.Head();
    }
  }

  lemma OneMoreYielded(out: seq<Item>, left: set<nat>, x: Item)
    requires StrictlyByKey(out) && x.key in left && Above(x, if out == [] then None else Some(out[|out| - 1]))
    ensures StrictlyByKey(out + [x])
    ensures KeysOf(out + [x]) + (left - {x.key}) == KeysOf(out) + left
  {
    assert forall y :: y in out + [x] <==> y in out || y == x;
  }

  const READ_FAILED: ErrorCode := 2

  /** Reading to the end without a look ahead is a run of the merge; a read below that fails cuts it
      short. */
  method ReadToEnd(it: OrderedCombinedIterator, faulty: bool) returns (out: seq<Item>, end: Answer)
    requires it.Aligned()
    modifies it
    ensures var run := old(Run(it.slots, it.lastYielded));
            if end == Fails(READ_FAILED) then faulty && out <= run.items else out == run.items && end == run.end
  {
    out, end := [], Yields(Item(0, 0));
    ghost var run := Run(it.slots, it.lastYielded);
    assert [] + run.items == run.items;
    while end.Yields?
      invariant end.Yields? ==> it.Aligned() && RunGoesOn(run, out, Run(it.slots, it.lastYielded))
      invariant end == Fails(READ_FAILED) ==> faulty && out <= run.items
      invariant !end.Yields? && end != Fails(READ_FAILED) ==> out == run.items && end == run.end
      decreases end.Yields?, Size(it.slots)
    {
      var fails := *;
      if fails && faulty {
        end := Fails(READ_FAILED);
      } else {
        RunStep(run, out, it.slots, it.lastYielded);
        end := it.Next();
        if end.Yields? {
          out := out + [end.item];
        }
      }
    }
  }

  ghost predicate RunGoesOn(run: RunResult, out: seq<Item>, more: RunResult) {
    run.items == out + more.items && run.end == more.end
  }

  lemma RunStep(run: RunResult, out: seq<Item>, inputs: seq<Input>, last: Option<Item>)
    requires RunGoesOn(run, out, Run(inputs, last))
    ensures var r := NextAnswer(inputs, last);
            if r.Yields? then
              && Size(NextInputs(inputs, last)) < Size(inputs)
              && RunGoesOn(run, out + [r.item], Run(NextInputs(inputs, last), Some(r.item)))
            else out == run.items && r == run.end && r != Fails(READ_FAILED)
    ensures out <= run.items
  {
    var r := NextAnswer(inputs, last);
    if r.Yields? {
      NextShrinks(inputs, last);
      var more := Run(NextInputs(inputs, last), Some(r.item)).items;
      assert out + ([r.item] + more) == (out + [r.item]) + more;
    } else {
      assert out + [] == out;
    }
  }
}
