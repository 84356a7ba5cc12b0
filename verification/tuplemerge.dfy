/** The merge of sorted tuple iterators as a function of what they hold (tuple_iterators.go), and which
    inputs it merges without loss. */
module TupleMerge {
  import opened Options

  /** A tuple with the rank of the text that orders it. */
  datatype Item = Item(key: nat, id: nat)

  type ErrorCode = nat

  datatype Answer =
    | Yields(item: Item)
    | Done
    | Fails(error: ErrorCode)

  // ----- merging sorted iterators

  /** An input of the merge: what it has left, or nothing once it was found to be done. */
  datatype Input = Nil | Input(items: seq<Item>)

  /** What looking at one input does: it settles on a head, is done, or is found out of order. */
  datatype Settled =
    | Ready(head: Item, rest: Input)
    | Exhausted
    | OutOfOrder

  predicate ByKey(items: seq<Item>) {
    forall i, j | 0 <= i < j < |items| :: items[i].key <= items[j].key
  }

  predicate StrictlyByKey(items: seq<Item>) {
    forall i, j | 0 <= i < j < |items| :: items[i].key < items[j].key
  }

  /** The items from the first one whose key is not `key`. */
  function SkipKey(items: seq<Item>, key: nat): (r: seq<Item>)
    ensures |r| <= |items|
  {
    if items == [] || items[0].key != key then items else SkipKey(items[1..], key)
  }

  lemma {:induction false} SkipKeyIsSuffix(items: seq<Item>, key: nat)
    ensures var r := SkipKey(items, key);
            && r == items[|items| - |r|..] && (r != [] ==> r[0].key != key)
            && forall i :: 0 <= i < |items| - |r| ==> items[i].key == key
  {
    if items != [] && items[0].key == key {
      SkipKeyIsSuffix(items[1..], key);
    }
  }

  /** An input whose head repeats the last key yielded is moved on.  The item it stops on has been taken
      from the input by then. */
  function Settle(items: seq<Item>, last: Option<Item>): Settled {
    if items == [] then Exhausted
    else if last.None? || items[0].key > last.value.key then Ready(items[0], Input(items))
    else if items[0].key < last.value.key then OutOfOrder
    else
      var rest := SkipKey(items, last.value.key);
      if rest == [] then Exhausted else Ready(rest[0], Input(rest[1..]))
  }

  function AfterSettle(input: Input, last: Option<Item>): Input {
    if input.Nil? then Nil
    else
      match Settle(input.items, last)
      case Ready(_, rest) => rest
      case Exhausted => Nil
      case OutOfOrder => input
  }

  predicate IsReady(input: Input, last: Option<Item>) {
    input.Input? && Settle(input.items, last).Ready?
  }

  function HeadOf(input: Input, last: Option<Item>): Item
    requires IsReady(input, last)
  {
    Settle(input.items, last).head
  }

  /** `idx` is the first input with the least head. */
  predicate IsLeast(inputs: seq<Input>, last: Option<Item>, idx: nat) {
    && idx < |inputs| && IsReady(inputs[idx], last)
    && forall j | 0 <= j < |inputs| && IsReady(inputs[j], last) ::
         HeadOf(inputs[idx], last).key <= HeadOf(inputs[j], last).key &&
         (j < idx ==> HeadOf(inputs[idx], last).key < HeadOf(inputs[j], last).key)
  }

  function WithoutNil(inputs: seq<Input>): seq<Input> {
    if inputs == [] then []
    else WithoutNil(inputs[..|inputs| - 1]) + if inputs[|inputs| - 1].Nil? then [] else [inputs[|inputs| - 1]]
  }

  datatype Found =
    | At(idx: nat)
    | NoneLeft
    | NotInOrder

  /** The index of the least head, the first one among equals. */
  function LookFor(inputs: seq<Input>, last: Option<Item>): (r: Found)
    ensures r.At? ==> r.idx < |inputs| && IsReady(inputs[r.idx], last)
  {
    if inputs == [] then NoneLeft
    else
      var before := LookFor(inputs[..|inputs| - 1], last);
      if before.NotInOrder? then NotInOrder else Better(inputs, last, before)
  }

  /** The choice between the best so far and the last input. */
  function Better(inputs: seq<Input>, last: Option<Item>, before: Found): (r: Found)
    requires inputs != [] && !before.NotInOrder?
    requires before.At? ==> before.idx < |inputs| - 1 && IsReady(inputs[before.idx], last)
    ensures r.At? ==> r.idx < |inputs| && IsReady(inputs[r.idx], last)
  {
    var n := |inputs| - 1;
    if inputs[n].Nil? then before
    else
      match Settle(inputs[n].items, last)
      case OutOfOrder => NotInOrder
      case Exhausted => before
      case Ready(head, _) =>
        if before.NoneLeft? || HeadOf(inputs[before.idx], last).key > head.key then At(n) else before
  }

  lemma LookForNext(inputs: seq<Input>, last: Option<Item>, i: nat)
    requires i < |inputs| && !LookFor(inputs[..i], last).NotInOrder?
    ensures LookFor(inputs[..i + 1], last) == Better(inputs[..i + 1], last, LookFor(inputs[..i], last))
  {
    assert inputs[..i + 1][..i] == inputs[..i];
  }

  lemma {:induction false} LookForStops(inputs: seq<Input>, last: Option<Item>, i: nat)
    requires i <= |inputs| && LookFor(inputs[..i], last).NotInOrder?
    ensures LookFor(inputs, last).NotInOrder?
    decreases |inputs|
  {
    if i < |inputs| {
      assert inputs[..|inputs| - 1][..i] == inputs[..i];
      LookForStops(inputs[..|inputs| - 1], last, i);
    } else {
      assert inputs[..i] == inputs;
    }
  }

  predicate IsOutOfOrder(input: Input, last: Option<Item>) {
    input.Input? && Settle(input.items, last).OutOfOrder?
  }

  lemma {:induction false} LookForLeast(inputs: seq<Input>, last: Option<Item>)
    ensures LookFor(inputs, last).At? ==> IsLeast(inputs, last, LookFor(inputs, last).idx)
  {
    if LookFor(inputs, last).At? {
      var n := |inputs| - 1;
      var before := LookFor(inputs[..n], last);
      LookForLeast(inputs[..n], last);
      LookForNone(inputs[..n], last);
      forall j | 0 <= j < n && IsReady(inputs[j], last)
        ensures before.At? && HeadOf(inputs[before.idx], last).key <= HeadOf(inputs[j], last).key
        ensures j < before.idx ==> HeadOf(inputs[before.idx], last).key < HeadOf(inputs[j], last).key
      {
        assert IsReady(inputs[..n][j], last);
      }
    }
  }

  lemma {:induction false} LookForNone(inputs: seq<Input>, last: Option<Item>)
    ensures LookFor(inputs, last).NoneLeft? ==> forall i :: 0 <= i < |inputs| ==> !IsReady(inputs[i], last)
  {
    if inputs != [] && LookFor(inputs, last).NoneLeft? {
      var n := |inputs| - 1;
      LookForNone(inputs[..n], last);
      forall i | 0 <= i < |inputs| ensures !IsReady(inputs[i], last) {
        if i < n { assert !IsReady(inputs[..n][i], last); }
      }
    }
  }

  /** The search fails exactly when some input is found to go back behind the last key. */
  lemma {:induction false} LookForFails(inputs: seq<Input>, last: Option<Item>)
    ensures LookFor(inputs, last).NotInOrder? <==> exists i :: 0 <= i < |inputs| && IsOutOfOrder(inputs[i], last)
  {
    if inputs != [] {
      var n := |inputs| - 1;
      LookForFails(inputs[..n], last);
      if i :| 0 <= i < n && IsOutOfOrder(inputs[i], last) {
        assert IsOutOfOrder(inputs[..n][i], last);
      }
      if i :| 0 <= i < n && IsOutOfOrder(inputs[..n][i], last) {
        assert IsOutOfOrder(inputs[i], last);
      }
    }
  }

  function SettleAll(inputs: seq<Input>, last: Option<Item>): (r: seq<Input>)
    ensures |r| == |inputs| && forall i :: 0 <= i < |r| ==> r[i] == AfterSettle(inputs[i], last)
  {
    seq(|inputs|, i requires 0 <= i < |inputs| => AfterSettle(inputs[i], last))
  }

  const NOT_IN_ORDER: ErrorCode := 1

  /** The next answer, from the input with the least head as that input is after the search. */
  function NextAnswer(inputs: seq<Input>, last: Option<Item>): Answer {
    match LookFor(inputs, last)
    case NotInOrder => Fails(NOT_IN_ORDER)
    case NoneLeft => Done
    case At(idx) =>
      var rest := AfterSettle(inputs[idx], last).items;
      if rest == [] then Done else Yields(rest[0])
  }

  function NextInputs(inputs: seq<Input>, last: Option<Item>): seq<Input> {
    var settled := SettleAll(inputs, last);
    match LookFor(inputs, last)
    case At(idx) => if settled[idx].items == [] then settled else settled[idx := Input(settled[idx].items[1..])]
    case _ => settled
  }

  // ----- what is yielded

  /** What the inputs have left. */
  function Left(inputs: seq<Input>): set<Item> {
    set i, x | 0 <= i < |inputs| && inputs[i].Input? && x in inputs[i].items :: x
  }

  ghost predicate In(inputs: seq<Input>, i: int, x: Item) {
    0 <= i < |inputs| && inputs[i].Input? && x in inputs[i].items
  }

  lemma LeftIsPart(a: seq<Input>, b: seq<Input>)
    requires forall i, x :: In(a, i, x) ==> In(b, i, x)
    ensures Left(a) <= Left(b)
  {
    forall x | x in Left(a) ensures x in Left(b) {
      var i :| 0 <= i < |a| && a[i].Input? && x in a[i].items;
      assert In(a, i, x);
      assert In(b, i, x);
    }
  }

  predicate AllByKey(inputs: seq<Input>) {
    forall i | 0 <= i < |inputs| && inputs[i].Input? :: ByKey(inputs[i].items)
  }

  predicate Above(x: Item, last: Option<Item>) {
    last.Some? ==> x.key > last.value.key
  }

  lemma SkipKeyAbove(items: seq<Item>, key: nat)
    requires ByKey(items) && (items != [] ==> items[0].key >= key)
    ensures ByKey(SkipKey(items, key))
    ensures forall x :: x in SkipKey(items, key) ==> x in items && x.key > key
  {
    var rest := SkipKey(items, key);
    var k := |items| - |rest|;
    SkipKeyIsSuffix(items, key);
    DropByKey(items, k);
    if rest != [] {
      assert rest[0] == items[k];
      AllAboveHead(rest);
    }
  }

  lemma DropByKey(items: seq<Item>, k: nat)
    requires ByKey(items) && k <= |items|
    ensures ByKey(items[k..]) && forall x :: x in items[k..] ==> x in items
  {}

  lemma AllAboveHead(items: seq<Item>)
    requires ByKey(items) && items != []
    ensures forall x :: x in items ==> x.key >= items[0].key
  {}

  lemma SettledAbove(items: seq<Item>, last: Option<Item>)
    requires ByKey(items) && Settle(items, last).Ready?
    ensures ByKey(Settle(items, last).rest.items)
    ensures forall x :: x in Settle(items, last).rest.items ==> x in items && Above(x, last)
  {
    if last.Some? {
      if items[0].key == last.value.key {
        SkipKeyAbove(items, last.value.key);
      } else {
        AllAboveHead(items);
      }
    }
  }

  /** Looking at the inputs takes nothing in and keeps them ascending. */
  lemma SettleAllKeeps(inputs: seq<Input>, last: Option<Item>)
    requires AllByKey(inputs)
    ensures AllByKey(SettleAll(inputs, last)) && forall i, x :: In(SettleAll(inputs, last), i, x) ==> In(inputs, i, x)
  {
    var settled := SettleAll(inputs, last);
    forall i | 0 <= i < |settled| && settled[i].Input?
      ensures inputs[i].Input? && ByKey(settled[i].items) && forall x :: x in settled[i].items ==> x in inputs[i].items
    {
      if IsReady(inputs[i], last) {
        SettledAbove(inputs[i].items, last);
      }
    }
  }

  lemma TakingKeeps(settled: seq<Input>, idx: nat)
    requires AllByKey(settled) && idx < |settled| && settled[idx].Input? && settled[idx].items != []
    ensures var after := settled[idx := Input(settled[idx].items[1..])];
            AllByKey(after) && forall i, x :: In(after, i, x) ==> In(settled, i, x)
  {
    var rest := settled[idx].items[1..];
    assert ByKey(settled[idx].items);
    assert forall x :: x in rest ==> x in settled[idx].items;
  }

  /** Over inputs that are each ascending, every answer comes from the inputs and its key is greater than
      all the keys yielded before. */
  lemma YieldsIncrease(inputs: seq<Input>, last: Option<Item>)
    requires AllByKey(inputs) && NextAnswer(inputs, last).Yields?
    ensures Above(NextAnswer(inputs, last).item, last) && NextAnswer(inputs, last).item in Left(inputs)
    ensures AllByKey(NextInputs(inputs, last)) && Left(NextInputs(inputs, last)) <= Left(inputs)
  {
    var idx := LookFor(inputs, last).idx;
    var settled := SettleAll(inputs, last);
    SettledAbove(inputs[idx].items, last);
    SettleAllKeeps(inputs, last);
    TakingKeeps(settled, idx);
    LeftIsPart(NextInputs(inputs, last), inputs);
    var x := settled[idx].items[0];
    assert In(settled, idx, x);
    assert In(inputs, idx, x);
  }

  // ----- whole runs

  function Items(input: Input): seq<Item> {
    if input.Nil? then [] else input.items
  }

  function Size(inputs: seq<Input>): nat {
    if inputs == [] then 0 else Size(inputs[..|inputs| - 1]) + |Items(inputs[|inputs| - 1])|
  }

  lemma {:induction false} SizeLess(a: seq<Input>, b: seq<Input>)
    requires |a| == |b| && forall i :: 0 <= i < |a| ==> |Items(a[i])| <= |Items(b[i])|
    ensures Size(a) <= Size(b)
    ensures (exists i :: 0 <= i < |a| && |Items(a[i])| < |Items(b[i])|) ==> Size(a) < Size(b)
  {
    if a != [] {
      var n := |a| - 1;
      SizeLess(a[..n], b[..n]);
      if i :| 0 <= i < |a| && |Items(a[i])| < |Items(b[i])| && i < n {
        assert |Items(a[..n][i])| < |Items(b[..n][i])|;
      }
    }
  }

  lemma SettleShrinks(inputs: seq<Input>, last: Option<Item>)
    ensures forall i :: 0 <= i < |inputs| ==> |Items(SettleAll(inputs, last)[i])| <= |Items(inputs[i])|
  {}

  lemma NextShrinks(inputs: seq<Input>, last: Option<Item>)
    requires NextAnswer(inputs, last).Yields?
    ensures Size(NextInputs(inputs, last)) < Size(inputs)
  {
    SettleShrinks(inputs, last);
    var after := NextInputs(inputs, last);
    var idx := LookFor(inputs, last).idx;
    assert |Items(after[idx])| < |Items(SettleAll(inputs, last)[idx])|;
    SizeLess(after, inputs);
  }

  /** A run of the merge to its end: what it yields, and the answer that ends it. */
  datatype RunResult = RunResult(items: seq<Item>, end: Answer)

  function Run(inputs: seq<Input>, last: Option<Item>): RunResult
    decreases Size(inputs)
  {
    var r := NextAnswer(inputs, last);
    if r.Yields? then
      NextShrinks(inputs, last);
      var more := Run(NextInputs(inputs, last), Some(r.item));
      RunResult([r.item] + more.items, more.end)
    else RunResult([], r)
  }

  function KeysOf(items: seq<Item>): set<nat> {
    set x | x in items :: x.key
  }

  function KeysLeft(inputs: seq<Input>): set<nat> {
    set x | x in Left(inputs) :: x.key
  }

  ghost predicate HasKey(inputs: seq<Input>, i: int, k: nat) {
    0 <= i < |inputs| && k in KeysOf(Items(inputs[i]))
  }

  lemma KeyIsLeft(inputs: seq<Input>, k: nat)
    ensures k in KeysLeft(inputs) <==> exists i :: HasKey(inputs, i, k)
  {
    if k in KeysLeft(inputs) {
      var x :| x in Left(inputs) && x.key == k;
      var i :| 0 <= i < |inputs| && inputs[i].Input? && x in inputs[i].items;
      assert HasKey(inputs, i, k);
    }
    if i :| HasKey(inputs, i, k) {
      var x :| x in Items(inputs[i]) && x.key == k;
      assert x in Left(inputs);
    }
  }

  /** The run yields each of the keys once, in order, and reports no failure. */
  ghost predicate IsExactRun(r: RunResult, keys: set<nat>) {
    StrictlyByKey(r.items) && KeysOf(r.items) == keys && r.end == Done
  }

  // ----- which inputs are merged without loss

  /** What an input has left after its first key.  If that key is yielded from elsewhere, or the input has
      a second row with it, the rows are skipped and the row after them is taken along. */
  function AfterFirst(items: seq<Item>, elsewhere: bool): (r: seq<Item>)
    requires items != []
    ensures |r| < |items|
  {
    var rest := SkipKey(items, items[0].key);
    if rest == [] || (!elsewhere && |items| - |rest| == 1) then rest else rest[1..]
  }

  /** The key of the row taken along, unless the input has another row with it. */
  function TakenAlong(items: seq<Item>, elsewhere: bool): Option<nat>
    requires items != []
  {
    var rest := SkipKey(items, items[0].key);
    var after := AfterFirst(items, elsewhere);
    if |after| == |rest| || (after != [] && after[0].key == rest[0].key) then None else Some(rest[0].key)
  }

  /** The keys an input still has when it is their turn; `others` are those that an input before it
      has, which yields them. */
  function Shown(items: seq<Item>, others: set<nat>): set<nat>
    decreases |items|
  {
    if items == [] then {} else {items[0].key} + Shown(AfterFirst(items, items[0].key in others), others)
  }

  /** After the key `p` the row with the key `k` is taken along, and the input has no other. */
  predicate IsTaken(items: seq<Item>, others: set<nat>, p: nat, k: nat)
    decreases |items|
  {
    items != [] &&
    var elsewhere := items[0].key in others;
    (p == items[0].key && TakenAlong(items, elsewhere) == Some(k)) ||
        IsTaken(AfterFirst(items, elsewhere), others, p, k)
  }

  /** The keys that one of the first `j` inputs has when it is their turn. */
  function ShownBefore(inputs: seq<Input>, j: nat): set<nat>
    requires j <= |inputs|
    decreases j, 0
  {
    if j == 0 then {} else ShownBefore(inputs, j - 1) + ShownAt(inputs, j - 1)
  }

  function ShownAt(inputs: seq<Input>, j: nat): set<nat>
    requires j < |inputs|
    decreases j, 1
  {
    Shown(Items(inputs[j]), ShownBefore(inputs, j))
  }

  ghost predicate IsTakenAt(inputs: seq<Input>, j: int, p: nat, k: nat) {
    0 <= j < |inputs| && IsTaken(Items(inputs[j]), ShownBefore(inputs, j), p, k)
  }

  /** A key taken along from input `j` is yielded all the same: an input before it has it, or any input
      has it and another key comes in between. */
  ghost predicate IsRegained(inputs: seq<Input>, j: int, p: nat, k: nat) {
    0 <= j < |inputs| &&
    (|| k in ShownBefore(inputs, j)
     || (k in ShownBefore(inputs, |inputs|) && exists q :: q in ShownBefore(inputs, |inputs|) && p < q < k))
  }

  /** Every key that is taken along from one input is yielded from another. */
  ghost predicate Lossless(inputs: seq<Input>) {
    forall j, p, k :: IsTakenAt(inputs, j, p, k) ==> IsRegained(inputs, j, p, k)
  }

  lemma AfterFirstKeeps(items: seq<Item>, elsewhere: bool)
    requires ByKey(items) && items != []
    ensures ByKey(AfterFirst(items, elsewhere))
    ensures forall x :: x in AfterFirst(items, elsewhere) ==> x in items && x.key > items[0].key
  {
    SkipKeyAbove(items, items[0].key);
    var rest := SkipKey(items, items[0].key);
    if rest != [] {
      DropByKey(rest, 1);
    }
  }

  lemma TakenIsBetween(items: seq<Item>, elsewhere: bool)
    requires ByKey(items) && items != [] && TakenAlong(items, elsewhere).Some?
    ensures var k, after := TakenAlong(items, elsewhere).value, AfterFirst(items, elsewhere);
            k > items[0].key && k in KeysOf(items) && (after != [] ==> k < after[0].key)
  {
    SkipKeyAbove(items, items[0].key);
    var rest := SkipKey(items, items[0].key);
    assert rest[0] in rest;
  }

  /** Every key is the first one, is left, or is taken along. */
  lemma KeysAccountedFor(items: seq<Item>, elsewhere: bool, k: nat)
    requires items != [] && k in KeysOf(items)
    ensures k == items[0].key || k in KeysOf(AfterFirst(items, elsewhere)) || TakenAlong(items, elsewhere) == Some(k)
  {
    var x :| x in items && x.key == k;
    var rest, after := SkipKey(items, items[0].key), AfterFirst(items, elsewhere);
    var i :| 0 <= i < |items| && items[i] == x;
    var n := |items| - |rest|;
    SkipKeyIsSuffix(items, items[0].key);
    if i >= n {
      assert rest[i - n] == x;
      if after != rest {
        if i == n {
          assert after != [] && after[0].key == k ==> after[0] in after;
        } else {
          assert after[i - n - 1] == x;
        }
      }
    }
  }

  lemma {:induction false} ShownAreKeys(items: seq<Item>, others: set<nat>)
    ensures Shown(items, others) <= KeysOf(items)
    decreases |items|
  {
    if items != [] {
      assert items[0] in items;
      var after := AfterFirst(items, items[0].key in others);
      ShownAreKeys(after, others);
      AfterFirstIsSuffix(items, items[0].key in others);
    }
  }

  lemma AfterFirstIsSuffix(items: seq<Item>, elsewhere: bool)
    requires items != []
    ensures forall x :: x in AfterFirst(items, elsewhere) ==> x in items
    ensures KeysOf(AfterFirst(items, elsewhere)) <= KeysOf(items)
  {
    var rest := SkipKey(items, items[0].key);
    SkipKeyIsSuffix(items, items[0].key);
    assert forall x :: x in rest ==> x in items;
  }

  /** Only which of its own keys others have matters to an input. */
  lemma {:induction false} ShownSame(items: seq<Item>, a: set<nat>, b: set<nat>)
    requires forall k :: k in KeysOf(items) ==> (k in a <==> k in b)
    ensures Shown(items, a) == Shown(items, b)
    ensures forall p, k :: IsTaken(items, a, p, k) <==> IsTaken(items, b, p, k)
    decreases |items|
  {
    if items != [] {
      assert items[0] in items;
      AfterFirstIsSuffix(items, items[0].key in a);
      ShownSame(AfterFirst(items, items[0].key in a), a, b);
    }
  }

  lemma {:induction false} ShownOrTaken(items: seq<Item>, others: set<nat>, k: nat)
    requires k in KeysOf(items) && k !in Shown(items, others)
    ensures exists p :: IsTaken(items, others, p, k)
    decreases |items|
  {
    var elsewhere := items[0].key in others;
    KeysAccountedFor(items, elsewhere, k);
    if TakenAlong(items, elsewhere) == Some(k) {
      assert IsTaken(items, others, items[0].key, k);
    } else {
      ShownOrTaken(AfterFirst(items, elsewhere), others, k);
      var p :| IsTaken(AfterFirst(items, elsewhere), others, p, k);
      assert IsTaken(items, others, p, k);
    }
  }

  lemma {:induction false} TakenIsAKey(items: seq<Item>, others: set<nat>, p: nat, k: nat)
    requires ByKey(items) && IsTaken(items, others, p, k)
    ensures k in KeysOf(items) && p < k && p in KeysOf(items)
    decreases |items|
  {
    var elsewhere := items[0].key in others;
    assert items[0] in items;
    if p == items[0].key && TakenAlong(items, elsewhere) == Some(k) {
      TakenIsBetween(items, elsewhere);
    } else {
      AfterFirstKeeps(items, elsewhere);
      AfterFirstIsSuffix(items, elsewhere);
      TakenIsAKey(AfterFirst(items, elsewhere), others, p, k);
    }
  }

  lemma ShownBeforeNext(inputs: seq<Input>, j: nat, k: nat)
    requires j < |inputs|
    ensures k in ShownBefore(inputs, j + 1) <==> k in ShownBefore(inputs, j) || k in ShownAt(inputs, j)
  {}

  lemma {:induction false} ShownBeforeHas(inputs: seq<Input>, j: nat, i: nat, k: nat)
    requires i < j <= |inputs| && k in ShownAt(inputs, i)
    ensures k in ShownBefore(inputs, j)
  {
    ShownBeforeNext(inputs, j - 1, k);
    if i < j - 1 {
      ShownBeforeHas(inputs, j - 1, i, k);
    }
  }

  lemma {:induction false} ShownBeforeFrom(inputs: seq<Input>, j: nat, k: nat) returns (i: nat)
    requires j <= |inputs| && k in ShownBefore(inputs, j)
    ensures i < j && k in ShownAt(inputs, i)
  {
    ShownBeforeNext(inputs, j - 1, k);
    if k in ShownAt(inputs, j - 1) {
      i := j - 1;
    } else {
      i := ShownBeforeFrom(inputs, j - 1, k);
    }
  }

  /** Of inputs that are merged without loss, every key is there when it is its turn. */
  lemma LosslessShowsAll(inputs: seq<Input>, k: nat)
    requires Lossless(inputs) && k in KeysLeft(inputs)
    ensures k in ShownBefore(inputs, |inputs|)
  {
    KeyIsLeft(inputs, k);
    var i :| HasKey(inputs, i, k);
    if k !in ShownAt(inputs, i) {
      ShownOrTaken(Items(inputs[i]), ShownBefore(inputs, i), k);
      var p :| IsTaken(Items(inputs[i]), ShownBefore(inputs, i), p, k);
      assert IsTakenAt(inputs, i, p, k);
      if k in ShownBefore(inputs, i) {
        var h := ShownBeforeFrom(inputs, i, k);
        ShownBeforeHas(inputs, |inputs|, h, k);
      }
    } else {
      ShownBeforeHas(inputs, |inputs|, i, k);
    }
  }

  lemma ShownIsLeft(inputs: seq<Input>, j: nat, k: nat) returns (i: nat)
    requires j <= |inputs| && k in ShownBefore(inputs, j)
    ensures i < j && HasKey(inputs, i, k) && k in KeysLeft(inputs)
  {
    i := ShownBeforeFrom(inputs, j, k);
    ShownAreKeys(Items(inputs[i]), ShownBefore(inputs, i));
    assert HasKey(inputs, i, k);
    KeyIsLeft(inputs, k);
  }

  // ----- one step of a run

  /** The inputs are ascending and have nothing left that is not above the last key yielded. */
  ghost predicate IsFresh(inputs: seq<Input>, last: Option<Item>) {
    AllByKey(inputs) && forall i :: 0 <= i < |inputs| && Items(inputs[i]) != [] ==> Above(Items(inputs[i])[0], last)
  }

  /** The input's first key is `m`. */
  predicate StartsWith(items: seq<Item>, m: nat) {
    items != [] && items[0].key == m
  }

  /** What input `j` has left once the least key `m` has been yielded and its repetitions skipped. */
  function LeftAfter(inputs: seq<Input>, m: nat, j: nat): seq<Item>
    requires j < |inputs|
  {
    RestOf(Items(inputs[j]), m, ShownBefore(inputs, j))
  }

  /** The key that input `j` loses with the least key `m`. */
  ghost predicate LosesAt(inputs: seq<Input>, m: nat, j: int, k: nat) {
    && 0 <= j < |inputs| && StartsWith(Items(inputs[j]), m)
    && TakenAlong(Items(inputs[j]), m in ShownBefore(inputs, j)) == Some(k)
  }

  ghost predicate StepsTo(inputs: seq<Input>, m: nat, after: seq<Input>) {
    && |after| == |inputs|
    && (forall j :: 0 <= j < |inputs| ==> Items(after[j]) == LeftAfter(inputs, m, j))
  }

  /** No key is below `m`. */
  ghost predicate IsFloor(inputs: seq<Input>, m: nat) {
    forall i, x :: 0 <= i < |inputs| && x in Items(inputs[i]) ==> m <= x.key
  }

  /** The two sets differ in `m` at most. */
  ghost predicate AgreeBut(a: set<nat>, b: set<nat>, m: nat) {
    a - {m} == b - {m}
  }

  function RestOf(items: seq<Item>, m: nat, others: set<nat>): seq<Item> {
    if StartsWith(items, m) then AfterFirst(items, m in others) else items
  }

  ghost predicate AllFrom(items: seq<Item>, m: nat) {
    forall x :: x in items ==> m <= x.key
  }

  lemma RestAbove(items: seq<Item>, m: nat, others: set<nat>)
    requires ByKey(items) && AllFrom(items, m)
    ensures ByKey(RestOf(items, m, others)) && AllFrom(RestOf(items, m, others), m + 1)
    ensures m !in KeysOf(RestOf(items, m, others))
  {
    if StartsWith(items, m) {
      AfterFirstKeeps(items, m in others);
    } else if items != [] {
      assert items[0] in items;
      AllAboveHead(items);
    }
  }

  /** Taking the step at one input: what others have of the other keys is the same after it. */
  lemma StepShows(items: seq<Item>, m: nat, others: set<nat>, others': set<nat>)
    requires ByKey(items) && AllFrom(items, m) && AgreeBut(others, others', m)
    ensures var rest := Shown(RestOf(items, m, others), others');
            m !in rest && Shown(items, others) == (if StartsWith(items, m) then {m} else {}) + rest
  {
    var rest := RestOf(items, m, others);
    RestAbove(items, m, others);
    ShownAreKeys(rest, others');
    AgreeOn(KeysOf(rest), others, others', m);
    ShownSame(rest, others, others');
  }

  lemma StepTakes(items: seq<Item>, m: nat, others: set<nat>, others': set<nat>, p: nat, k: nat)
    requires ByKey(items) && AllFrom(items, m) && AgreeBut(others, others', m)
    ensures IsTaken(items, others, p, k) <==>
              || (p == m && StartsWith(items, m) && TakenAlong(items, m in others) == Some(k))
              || IsTaken(RestOf(items, m, others), others', p, k)
  {
    var rest := RestOf(items, m, others);
    RestAbove(items, m, others);
    AgreeOn(KeysOf(rest), others, others', m);
    ShownSame(rest, others, others');
    assert IsTaken(rest, others, p, k) <==> IsTaken(rest, others', p, k);
  }

  lemma AgreeOn(keys: set<nat>, a: set<nat>, b: set<nat>, m: nat)
    requires AgreeBut(a, b, m) && m !in keys
    ensures forall k :: k in keys ==> (k in a <==> k in b)
  {
    forall k | k in keys ensures k in a <==> k in b {
      assert k in a - {m} <==> k in b - {m};
    }
  }

  /** The keys shown are those shown after the step, and `m` where an input starts with it. */
  lemma {:induction false} ShownSteps(inputs: seq<Input>, m: nat, after: seq<Input>, j: nat)
    requires AllByKey(inputs) && IsFloor(inputs, m) && StepsTo(inputs, m, after) && j <= |inputs|
    ensures m !in ShownBefore(after, j) && AgreeBut(ShownBefore(inputs, j), ShownBefore(after, j), m)
  {
    if j > 0 {
      var i := j - 1;
      ShownSteps(inputs, m, after, i);
      ShownStepsAt(inputs, m, after, i);
      AgreeJoin(ShownBefore(inputs, i), ShownAt(inputs, i), ShownBefore(after, i), ShownAt(after, i), m);
    }
  }

  lemma ShownStepsAt(inputs: seq<Input>, m: nat, after: seq<Input>, i: nat)
    requires AllByKey(inputs) && IsFloor(inputs, m) && StepsTo(inputs, m, after) && i < |inputs|
    requires AgreeBut(ShownBefore(inputs, i), ShownBefore(after, i), m)
    ensures m !in ShownAt(after, i)
    ensures ShownAt(inputs, i) == (if StartsWith(Items(inputs[i]), m) then {m} else {}) + ShownAt(after, i)
  {
    FloorAt(inputs, m, i);
    StepShows(Items(inputs[i]), m, ShownBefore(inputs, i), ShownBefore(after, i));
  }

  lemma FloorAt(inputs: seq<Input>, m: nat, i: nat)
    requires AllByKey(inputs) && IsFloor(inputs, m) && i < |inputs|
    ensures ByKey(Items(inputs[i])) && AllFrom(Items(inputs[i]), m)
    ensures LeftAfter(inputs, m, i) == RestOf(Items(inputs[i]), m, ShownBefore(inputs, i))
  {}

  lemma AgreeJoin(a: set<nat>, b: set<nat>, a': set<nat>, b': set<nat>, m: nat)
    requires m !in a' && m !in b' && (b == b' || b == {m} + b') && AgreeBut(a, a', m)
    ensures m !in a' + b' && AgreeBut(a + b, a' + b', m)
  {
    assert (a + b) - {m} == (a - {m}) + (b - {m});
    assert (a' + b') - {m} == (a' - {m}) + (b' - {m});
  }

  lemma TakenSteps(inputs: seq<Input>, m: nat, after: seq<Input>, j: nat, p: nat, k: nat)
    requires AllByKey(inputs) && IsFloor(inputs, m) && StepsTo(inputs, m, after) && j < |inputs|
    ensures IsTakenAt(inputs, j, p, k) <==> (p == m && LosesAt(inputs, m, j, k)) || IsTakenAt(after, j, p, k)
  {
    ShownSteps(inputs, m, after, j);
    FloorAt(inputs, m, j);
    StepTakes(Items(inputs[j]), m, ShownBefore(inputs, j), ShownBefore(after, j), p, k);
  }

  lemma LosesAKey(inputs: seq<Input>, m: nat, j: nat, k: nat)
    requires AllByKey(inputs) && LosesAt(inputs, m, j, k)
    ensures k > m && HasKey(inputs, j, k)
    ensures LeftAfter(inputs, m, j) != [] ==> k < LeftAfter(inputs, m, j)[0].key
  {
    TakenIsBetween(Items(inputs[j]), m in ShownBefore(inputs, j));
  }

  /** What is lost with the least key must be regained; then the inputs are merged without loss if and only
      if those after the step are. */
  lemma LosslessSteps(inputs: seq<Input>, m: nat, after: seq<Input>)
    requires AllByKey(inputs) && IsFloor(inputs, m) && StepsTo(inputs, m, after)
    ensures Lossless(inputs) <==> Lossless(after) && forall j, k :: LosesAt(inputs, m, j, k) ==>
            IsRegained(inputs, j, m, k)
  {
    if Lossless(inputs) {
      forall j, p, k | IsTakenAt(after, j, p, k) ensures IsRegained(after, j, p, k) {
        RegainedSteps(inputs, m, after, j, p, k);
      }
      forall j, k | LosesAt(inputs, m, j, k) ensures IsRegained(inputs, j, m, k) {
        TakenSteps(inputs, m, after, j, m, k);
        assert IsTakenAt(inputs, j, m, k);
      }
    }
    if Lossless(after) && forall j, k :: LosesAt(inputs, m, j, k) ==> IsRegained(inputs, j, m, k) {
      forall j, p, k | IsTakenAt(inputs, j, p, k) ensures IsRegained(inputs, j, p, k) {
        TakenSteps(inputs, m, after, j, p, k);
        if IsTakenAt(after, j, p, k) {
          RegainedSteps(inputs, m, after, j, p, k);
        }
      }
    }
  }

  lemma RegainedSteps(inputs: seq<Input>, m: nat, after: seq<Input>, j: nat, p: nat, k: nat)
    requires AllByKey(inputs) && IsFloor(inputs, m) && StepsTo(inputs, m, after) && IsTakenAt(after, j, p, k)
    ensures IsTakenAt(inputs, j, p, k)
    ensures IsRegained(inputs, j, p, k) <==> IsRegained(after, j, p, k)
  {
    TakenSteps(inputs, m, after, j, p, k);
    FloorAt(inputs, m, j);
    RestAbove(Items(inputs[j]), m, ShownBefore(inputs, j));
    TakenIsAKey(Items(after[j]), ShownBefore(after, j), p, k);
    assert p > m && k > m;
    ShownSteps(inputs, m, after, j);
    ShownSteps(inputs, m, after, |inputs|);
    AgreeOn({k}, ShownBefore(inputs, j), ShownBefore(after, j), m);
    var all, rest := ShownBefore(inputs, |inputs|), ShownBefore(after, |inputs|);
    AgreeOn({k}, all, rest, m);
    SameBetween(all, rest, m, p, k);
  }

  lemma SameBetween(a: set<nat>, b: set<nat>, m: nat, p: nat, k: nat)
    requires AgreeBut(a, b, m) && p > m
    ensures (exists q :: q in a && p < q < k) <==> (exists q :: q in b && p < q < k)
  {
    if q :| q in a && p < q < k {
      AgreeOn({q}, a, b, m);
    }
    if q :| q in b && p < q < k {
      AgreeOn({q}, a, b, m);
    }
  }

  // ----- a step as the merge takes it

  /** Looking at `raw` after `x` was yielded leaves `after` of it, and shows the key of the row that is
      lost, if there is one, or else the first key left. */
  ghost predicate SettlesAs(raw: Input, x: Item, after: seq<Item>, lost: Option<nat>) {
    && !IsOutOfOrder(raw, Some(x))
    && Items(AfterSettle(raw, Some(x))) == after
    && (IsReady(raw, Some(x)) <==> lost.Some? || after != [])
    && (IsReady(raw, Some(x)) ==> HeadOf(raw, Some(x)).key == if lost.Some? then lost.value else after[0].key)
  }

  lemma SettleSharer(input: Input, x: Item)
    requires ByKey(Items(input)) && StartsWith(Items(input), x.key)
    ensures SettlesAs(input, x, AfterFirst(Items(input), true), TakenAlong(Items(input), true))
  {
    var items := Items(input);
    assert Settle(items, Some(x)) == if SkipKey(items, x.key) == [] then Exhausted
                                     else Ready(SkipKey(items, x.key)[0], Input(SkipKey(items, x.key)[1..]));
  }

  lemma SettleOther(input: Input, x: Item)
    requires Items(input) != [] ==> Items(input)[0].key > x.key
    ensures SettlesAs(input, x, Items(input), None)
  {}

  lemma SettleYielder(items: seq<Item>)
    requires ByKey(items) && items != []
    ensures SettlesAs(Input(items[1..]), items[0], AfterFirst(items, false), TakenAlong(items, false))
  {
    var m, more := items[0].key, items[1..];
    assert SkipKey(items, m) == SkipKey(more, m);
    DropByKey(items, 1);
    if StartsWith(more, m) {
      FirstOfMany(items);
      SettleSharer(Input(more), items[0]);
    } else {
      FirstAlone(items);
      SettleOther(Input(more), items[0]);
    }
  }

  lemma FirstOfMany(items: seq<Item>)
    requires |items| > 1 && items[0].key == items[1].key
    ensures AfterFirst(items, false) == AfterFirst(items[1..], true)
    ensures TakenAlong(items, false) == TakenAlong(items[1..], true)
  {
    var rest := SkipKey(items[1..], items[0].key);
    assert SkipKey(items, items[0].key) == rest;
    if rest != [] {
      assert |items| - |rest| >= 2;
    }
  }

  lemma FirstAlone(items: seq<Item>)
    requires ByKey(items) && items != [] && !StartsWith(items[1..], items[0].key)
    ensures AfterFirst(items, false) == items[1..] && TakenAlong(items, false) == None
    ensures items[1..] != [] ==> items[1..][0].key > items[0].key
  {
    assert SkipKey(items, items[0].key) == items[1..];
  }

  /** The key that input `j` loses with the least key, if it loses one. */
  function LostAt(inputs: seq<Input>, m: nat, j: nat): Option<nat>
    requires j < |inputs|
  {
    if StartsWith(Items(inputs[j]), m) then TakenAlong(Items(inputs[j]), m in ShownBefore(inputs, j)) else None
  }

  /** `raw` is what the inputs are right after `x` was yielded from them. */
  ghost predicate AllSettle(inputs: seq<Input>, x: Item, raw: seq<Input>) {
    |raw| == |inputs| &&
    forall j: nat :: j < |inputs| ==> SettlesAs(raw[j], x, LeftAfter(inputs, x.key, j), LostAt(inputs, x.key, j))
  }

  lemma FreshSettles(inputs: seq<Input>, last: Option<Item>, j: nat)
    requires IsFresh(inputs, last) && j < |inputs|
    ensures !IsOutOfOrder(inputs[j], last) && Items(AfterSettle(inputs[j], last)) == Items(inputs[j])
    ensures IsReady(inputs[j], last) <==> Items(inputs[j]) != []
    ensures IsReady(inputs[j], last) ==> HeadOf(inputs[j], last) == Items(inputs[j])[0]
  {
    if Items(inputs[j]) != [] {
      assert Above(Items(inputs[j])[0], last);
    }
  }

  lemma LookForIs(inputs: seq<Input>, last: Option<Item>, idx: nat)
    requires IsLeast(inputs, last, idx)
    requires forall i :: 0 <= i < |inputs| ==> !IsOutOfOrder(inputs[i], last)
    ensures LookFor(inputs, last) == At(idx)
  {
    LookForFails(inputs, last);
    LookForNone(inputs, last);
    LookForLeast(inputs, last);
    var i := LookFor(inputs, last).idx;
    assert IsReady(inputs[i], last) && IsReady(inputs[idx], last);
  }

  lemma LookForNothing(inputs: seq<Input>, last: Option<Item>)
    requires forall i :: 0 <= i < |inputs| ==> !IsOutOfOrder(inputs[i], last) && !IsReady(inputs[i], last)
    ensures LookFor(inputs, last) == NoneLeft
  {
    LookForFails(inputs, last);
    LookForLeast(inputs, last);
  }

  /** Right after `idx` has yielded its first item. */
  ghost predicate TakenFrom(inputs: seq<Input>, idx: nat, raw: seq<Input>) {
    && |raw| == |inputs| && idx < |inputs| && Items(inputs[idx]) != []
    && forall i :: 0 <= i < |inputs| ==> Items(raw[i]) == if i == idx then Items(inputs[i])[1..] else Items(inputs[i])
  }

  /** `idx` is the first input with the least key. */
  ghost predicate IsFirst(inputs: seq<Input>, idx: nat) {
    && idx < |inputs| && Items(inputs[idx]) != [] && IsFloor(inputs, Items(inputs[idx])[0].key)
    && forall i :: 0 <= i < idx ==> !StartsWith(Items(inputs[i]), Items(inputs[idx])[0].key)
  }

  /** Fresh inputs with anything left yield their least item, which has the least key of all. */
  lemma FreshStep(inputs: seq<Input>, last: Option<Item>) returns (idx: nat)
    requires IsFresh(inputs, last) && KeysLeft(inputs) != {}
    ensures LookFor(inputs, last) == At(idx) && IsFirst(inputs, idx) && TakenFrom(inputs, idx, NextInputs(inputs, last))
    ensures var x := Items(inputs[idx])[0];
            NextAnswer(inputs, last) == Yields(x) && x.key in KeysLeft(inputs) && Above(x, last)
  {
    forall j: nat | j < |inputs| { FreshSettles(inputs, last, j); }
    LookForFails(inputs, last);
    LookForNone(inputs, last);
    LookForLeast(inputs, last);
    var k :| k in KeysLeft(inputs);
    KeyIsLeft(inputs, k);
    var i :| HasKey(inputs, i, k);
    assert IsReady(inputs[i], last);
    idx := LookFor(inputs, last).idx;
    LeastIsFloor(inputs, last, idx);
    HeadIsLeft(inputs, idx);
    FreshNext(inputs, last, idx);
  }

  lemma HeadIsLeft(inputs: seq<Input>, i: nat)
    requires i < |inputs| && Items(inputs[i]) != []
    ensures Items(inputs[i])[0].key in KeysLeft(inputs)
  {
    assert Items(inputs[i])[0] in Items(inputs[i]);
    assert HasKey(inputs, i, Items(inputs[i])[0].key);
    KeyIsLeft(inputs, Items(inputs[i])[0].key);
  }

  lemma FreshNext(inputs: seq<Input>, last: Option<Item>, idx: nat)
    requires IsFresh(inputs, last) && LookFor(inputs, last) == At(idx)
    ensures TakenFrom(inputs, idx, NextInputs(inputs, last))
    ensures NextAnswer(inputs, last) == Yields(Items(inputs[idx])[0]) && Above(Items(inputs[idx])[0], last)
  {
    forall j: nat | j < |inputs| { FreshSettles(inputs, last, j); }
  }

  lemma LeastIsFloor(inputs: seq<Input>, last: Option<Item>, idx: nat)
    requires IsFresh(inputs, last) && IsLeast(inputs, last, idx)
    ensures IsFirst(inputs, idx)
  {
    FreshSettles(inputs, last, idx);
    forall i: nat, x | i < |inputs| && x in Items(inputs[i]) ensures Items(inputs[idx])[0].key <= x.key {
      FreshSettles(inputs, last, i);
      AllAboveHead(Items(inputs[i]));
    }
    forall i: nat | i < idx ensures !StartsWith(Items(inputs[i]), Items(inputs[idx])[0].key) {
      FreshSettles(inputs, last, i);
    }
  }

  /** Once the first of the least items was yielded, every input settles as the step says. */
  lemma StepSettles(inputs: seq<Input>, last: Option<Item>, idx: nat, raw: seq<Input>)
    requires IsFresh(inputs, last) && IsFirst(inputs, idx) && TakenFrom(inputs, idx, raw)
    ensures AllSettle(inputs, Items(inputs[idx])[0], raw)
  {
    var x := Items(inputs[idx])[0];
    forall j: nat | j < |inputs| ensures SettlesAs(raw[j], x, LeftAfter(inputs, x.key, j), LostAt(inputs, x.key, j)) {
      FloorAt(inputs, x.key, j);
      if j == idx {
        if x.key in ShownBefore(inputs, j) {
          var i := ShownIsLeft(inputs, j, x.key);
          FloorAt(inputs, x.key, i);
          StartsWithFloor(Items(inputs[i]), x.key);
        }
        SettleYielder(Items(inputs[j]));
        SettlesSame(Input(Items(inputs[j])[1..]), raw[j], x, LeftAfter(inputs, x.key, j), LostAt(inputs, x.key, j));
      } else {
        if StartsWith(Items(inputs[j]), x.key) {
          assert x.key in ShownAt(inputs, idx);
          ShownBeforeHas(inputs, j, idx, x.key);
        }
        SettleOne(raw[j], x, x.key in ShownBefore(inputs, j));
      }
    }
  }

  lemma SettleOne(input: Input, x: Item, elsewhere: bool)
    requires ByKey(Items(input)) && AllFrom(Items(input), x.key) && (StartsWith(Items(input), x.key) ==> elsewhere)
    ensures if StartsWith(Items(input), x.key)
            then SettlesAs(input, x, AfterFirst(Items(input), true), TakenAlong(Items(input), true))
            else SettlesAs(input, x, Items(input), None)
  {
    if StartsWith(Items(input), x.key) {
      SettleSharer(input, x);
    } else {
      assert Items(input) != [] ==> Items(input)[0] in Items(input);
      SettleOther(input, x);
    }
  }

  lemma StartsWithFloor(items: seq<Item>, m: nat)
    requires ByKey(items) && AllFrom(items, m) && m in KeysOf(items)
    ensures StartsWith(items, m)
  {
    assert items[0] in items;
    AllAboveHead(items);
  }

  lemma SettlesSame(a: Input, b: Input, x: Item, after: seq<Item>, lost: Option<nat>)
    requires Items(a) == Items(b) && SettlesAs(a, x, after, lost)
    ensures SettlesAs(b, x, after, lost)
  {}

  // ----- the rows taken along do no harm if they are regained

  lemma StepsAfter(inputs: seq<Input>, x: Item, raw: seq<Input>)
    requires AllByKey(inputs) && IsFloor(inputs, x.key) && AllSettle(inputs, x, raw)
    ensures StepsTo(inputs, x.key, SettleAll(raw, Some(x))) && IsFresh(SettleAll(raw, Some(x)), Some(x))
  {
    var after := SettleAll(raw, Some(x));
    forall j: nat | j < |inputs|
      ensures Items(after[j]) == LeftAfter(inputs, x.key, j) && ByKey(Items(after[j]))
      ensures Items(after[j]) != [] ==> Above(Items(after[j])[0], Some(x))
    {
      FloorAt(inputs, x.key, j);
      RestAbove(Items(inputs[j]), x.key, ShownBefore(inputs, j));
      if Items(after[j]) != [] {
        assert Items(after[j])[0] in Items(after[j]);
      }
    }
  }

  /** All that is lost with the key `m` is regained. */
  ghost predicate RegainsAll(inputs: seq<Input>, m: nat) {
    forall j, k :: LosesAt(inputs, m, j, k) ==> IsRegained(inputs, j, m, k)
  }

  /** A key lost from input `j` and regained is not below the least key left, and if it is that key then
      an input before `j` begins with it. */
  lemma RegainedIsBehind(inputs: seq<Input>, m: nat, after: seq<Input>, j: nat, k: nat, i: nat)
    requires AllByKey(inputs) && IsFloor(inputs, m) && StepsTo(inputs, m, after)
    requires k > m && IsRegained(inputs, j, m, k)
    requires AllByKey(after) && IsFirst(after, i)
    ensures k >= Items(after[i])[0].key
    ensures k == Items(after[i])[0].key ==> i < j
  {
    var all := ShownBefore(after, |inputs|);
    ShownSteps(inputs, m, after, j);
    ShownSteps(inputs, m, after, |inputs|);
    AgreeOn({k}, ShownBefore(inputs, j), ShownBefore(after, j), m);
    AgreeOn({k}, ShownBefore(inputs, |inputs|), all, m);
    if k in ShownBefore(inputs, j) {
      var h := ShownIsLeft(after, j, k);
      NotBelowFirst(after, i, h, k);
    } else {
      var h := ShownIsLeft(after, |inputs|, k);
      NotBelowFirst(after, i, h, k);
      var q :| q in ShownBefore(inputs, |inputs|) && m < q < k;
      AgreeOn({q}, ShownBefore(inputs, |inputs|), all, m);
      var g := ShownIsLeft(after, |inputs|, q);
      NotBelowFirst(after, i, g, q);
    }
  }

  lemma NotBelowFirst(inputs: seq<Input>, i: nat, h: nat, k: nat)
    requires AllByKey(inputs) && IsFirst(inputs, i) && HasKey(inputs, h, k)
    ensures k >= Items(inputs[i])[0].key
    ensures k == Items(inputs[i])[0].key ==> i <= h
  {
    FloorAt(inputs, Items(inputs[i])[0].key, h);
    if k == Items(inputs[i])[0].key {
      StartsWithFloor(Items(inputs[h]), k);
    }
  }

  /** The search finds the same input whether or not the rows taken along are seen as heads. */
  ghost predicate IsUndisturbed(raw: seq<Input>, last: Option<Item>) {
    LookFor(raw, last) == LookFor(SettleAll(raw, last), last)
  }

  lemma RegainedUndisturbed(inputs: seq<Input>, x: Item, raw: seq<Input>)
    requires AllByKey(inputs) && IsFloor(inputs, x.key) && AllSettle(inputs, x, raw) && RegainsAll(inputs, x.key)
    ensures IsUndisturbed(raw, Some(x)) && !LookFor(raw, Some(x)).NotInOrder?
  {
    var after := SettleAll(raw, Some(x));
    StepsAfter(inputs, x, raw);
    if KeysLeft(after) == {} {
      forall j: nat | j < |raw| ensures !IsReady(raw[j], Some(x)) && !IsOutOfOrder(raw[j], Some(x)) {
        NothingIsLost(inputs, x.key, after, j);
      }
      LookForNothing(raw, Some(x));
      forall j: nat | j < |raw| ensures !IsReady(after[j], Some(x)) && !IsOutOfOrder(after[j], Some(x)) {
        FreshSettles(after, Some(x), j);
        NothingIsLost(inputs, x.key, after, j);
      }
      LookForNothing(after, Some(x));
    } else {
      var i := FreshStep(after, Some(x));
      forall j: nat | j < |raw| ensures RanksBehind(raw, Some(x), i, j, Items(after[i])[0].key) {
        SettlesBehind(inputs, x, raw, i, j);
      }
      LookForFirst(raw, Some(x), i, Items(after[i])[0].key);
    }
  }

  lemma NothingIsLost(inputs: seq<Input>, m: nat, after: seq<Input>, j: nat)
    requires AllByKey(inputs) && IsFloor(inputs, m) && StepsTo(inputs, m, after) && RegainsAll(inputs, m)
    requires KeysLeft(after) == {} && j < |inputs|
    ensures LostAt(inputs, m, j) == None && Items(after[j]) == []
  {
    if Items(after[j]) != [] {
      HeadIsLeft(after, j);
    }
    if LostAt(inputs, m, j).Some? {
      var k := LostAt(inputs, m, j).value;
      assert LosesAt(inputs, m, j, k);
      LosesAKey(inputs, m, j, k);
      assert IsRegained(inputs, j, m, k);
      RegainedIsLeft(inputs, m, after, j, k);
    }
  }

  lemma RegainedIsLeft(inputs: seq<Input>, m: nat, after: seq<Input>, j: nat, k: nat)
    requires AllByKey(inputs) && IsFloor(inputs, m) && StepsTo(inputs, m, after)
    requires k > m && IsRegained(inputs, j, m, k)
    ensures k in KeysLeft(after)
  {
    ShownSteps(inputs, m, after, j);
    ShownSteps(inputs, m, after, |inputs|);
    AgreeOn({k}, ShownBefore(inputs, j), ShownBefore(after, j), m);
    AgreeOn({k}, ShownBefore(inputs, |inputs|), ShownBefore(after, |inputs|), m);
    if k in ShownBefore(inputs, j) {
      var h := ShownIsLeft(after, j, k);
    } else {
      var h := ShownIsLeft(after, |inputs|, k);
    }
  }

  /** Input `j` is not found before `i`, whose head has the key `q`. */
  ghost predicate RanksBehind(raw: seq<Input>, last: Option<Item>, i: nat, j: nat, q: nat)
    requires j < |raw|
  {
    && !IsOutOfOrder(raw[j], last)
    && (j == i ==> IsReady(raw[j], last) && HeadOf(raw[j], last).key == q)
    && (IsReady(raw[j], last) ==> HeadOf(raw[j], last).key >= q && (j < i ==> HeadOf(raw[j], last).key > q))
  }

  lemma LookForFirst(raw: seq<Input>, last: Option<Item>, i: nat, q: nat)
    requires i < |raw| && forall j: nat :: j < |raw| ==> RanksBehind(raw, last, i, j, q)
    ensures LookFor(raw, last) == At(i)
  {
    forall j: nat | j < |raw|
      ensures !IsOutOfOrder(raw[j], last)
      ensures j == i ==> IsReady(raw[j], last) && HeadOf(raw[j], last).key == q
      ensures IsReady(raw[j], last) ==> HeadOf(raw[j], last).key >= q && (j < i ==> HeadOf(raw[j], last).key > q)
    {
      assert RanksBehind(raw, last, i, j, q);
    }
    LookForIs(raw, last, i);
  }

  lemma SettlesBehind(inputs: seq<Input>, x: Item, raw: seq<Input>, i: nat, j: nat)
    requires AllByKey(inputs) && IsFloor(inputs, x.key) && AllSettle(inputs, x, raw) && RegainsAll(inputs, x.key)
    requires IsFirst(SettleAll(raw, Some(x)), i) && j < |raw|
    ensures RanksBehind(raw, Some(x), i, j, Items(SettleAll(raw, Some(x))[i])[0].key)
  {
    var after := SettleAll(raw, Some(x));
    var q := Items(after[i])[0].key;
    StepsAfter(inputs, x, raw);
    if LostAt(inputs, x.key, j).Some? {
      var k := LostAt(inputs, x.key, j).value;
      assert LosesAt(inputs, x.key, j, k);
      LosesAKey(inputs, x.key, j, k);
      RegainedIsBehind(inputs, x.key, after, j, k, i);
    } else if Items(after[j]) != [] {
      assert Items(after[j])[0] in Items(after[j]);
      assert HasKey(after, j, Items(after[j])[0].key);
      NotBelowFirst(after, i, j, Items(after[j])[0].key);
    }
  }

  // ----- exactness

  /** The merge can go on from here without loss: the inputs are ascending, what the search shows is what
      is there, and nothing will be lost that is not regained. */
  ghost predicate IsSound(inputs: seq<Input>, last: Option<Item>) {
    forall v {:trigger UnfoldInputs(v)} :: v == inputs ==> IsSoundAll(v, last)
  }

  /** Asserting this of the inputs shows the definition of IsSound for them, which is of no use elsewhere. */
  predicate UnfoldInputs(inputs: seq<Input>) {
    true
  }

  ghost predicate IsSoundAll(inputs: seq<Input>, last: Option<Item>) {
    && AllByKey(inputs) && !LookFor(inputs, last).NotInOrder? && IsUndisturbed(inputs, last)
    && Lossless(SettleAll(inputs, last))
  }

  /** The keys that are still to come. */
  function KeysToCome(inputs: seq<Input>, last: Option<Item>): set<nat> {
    KeysLeft(SettleAll(inputs, last))
  }

  lemma SettledIsFresh(inputs: seq<Input>, last: Option<Item>)
    requires AllByKey(inputs) && !LookFor(inputs, last).NotInOrder?
    ensures IsFresh(SettleAll(inputs, last), last)
  {
    LookForFails(inputs, last);
    forall i: nat | i < |inputs|
      ensures var r := Items(AfterSettle(inputs[i], last)); ByKey(r) && (r != [] ==> Above(r[0], last))
    {
      assert !IsOutOfOrder(inputs[i], last);
      if inputs[i].Input? && Settle(inputs[i].items, last).Ready? {
        SettledAbove(inputs[i].items, last);
      }
    }
  }

  /** Two inputs are alike if they have the same items left. */
  ghost predicate AreAlike(a: seq<Input>, b: seq<Input>) {
    |a| == |b| && forall i :: 0 <= i < |a| ==> Items(a[i]) == Items(b[i])
  }

  lemma AlikeSettled(a: seq<Input>, b: seq<Input>, last: Option<Item>)
    requires AreAlike(a, b)
    ensures SettleAll(a, last) == SettleAll(b, last)
  {
    forall i: nat | i < |a| ensures AfterSettle(a[i], last) == AfterSettle(b[i], last) {
      SettledAlike(a[i], b[i], last);
    }
  }

  lemma SettledAlike(a: Input, b: Input, last: Option<Item>)
    requires Items(a) == Items(b)
    ensures AfterSettle(a, last) == AfterSettle(b, last) && (IsReady(a, last) <==> IsReady(b, last))
    ensures IsReady(a, last) ==> HeadOf(a, last) == HeadOf(b, last)
    ensures IsOutOfOrder(a, last) <==> IsOutOfOrder(b, last)
  {}

  lemma {:induction false} AlikeFound(a: seq<Input>, b: seq<Input>, last: Option<Item>)
    requires AreAlike(a, b)
    ensures LookFor(a, last) == LookFor(b, last)
  {
    if a != [] {
      var n := |a| - 1;
      AlikeFound(a[..n], b[..n], last);
      if !LookFor(a[..n], last).NotInOrder? {
        AlikeBetter(a, b, last, LookFor(a[..n], last));
      }
    }
  }

  lemma AlikeBetter(a: seq<Input>, b: seq<Input>, last: Option<Item>, before: Found)
    requires AreAlike(a, b) && a != [] && !before.NotInOrder?
    requires before.At? ==> before.idx < |a| - 1 && IsReady(a[before.idx], last) && IsReady(b[before.idx], last)
    ensures Better(a, last, before) == Better(b, last, before)
  {
    SettledAlike(a[|a| - 1], b[|a| - 1], last);
    if before.At? {
      SettledAlike(a[before.idx], b[before.idx], last);
    }
  }

  lemma AlikeRun(a: seq<Input>, b: seq<Input>, last: Option<Item>)
    requires AreAlike(a, b)
    ensures NextAnswer(a, last) == NextAnswer(b, last) && NextInputs(a, last) == NextInputs(b, last)
    ensures Run(a, last) == Run(b, last)
  {
    AlikeSettled(a, b, last);
    AlikeFound(a, b, last);
  }

  /** From a sound state the merge goes on as from the settled inputs. */
  lemma SettledGoesOn(raw: seq<Input>, last: Option<Item>)
    requires AllByKey(raw) && !LookFor(raw, last).NotInOrder? && IsUndisturbed(raw, last)
    ensures var settled := SettleAll(raw, last);
            && AreAlike(SettleAll(settled, last), settled)
            && NextAnswer(raw, last) == NextAnswer(settled, last)
            && AreAlike(NextInputs(raw, last), NextInputs(settled, last))
            && Run(raw, last) == Run(settled, last)
  {
    var settled := SettleAll(raw, last);
    SettledIsFresh(raw, last);
    forall j: nat | j < |raw| ensures Items(AfterSettle(settled[j], last)) == Items(settled[j]) {
      FreshSettles(settled, last, j);
    }
    if NextAnswer(raw, last).Yields? {
      AlikeRun(NextInputs(raw, last), NextInputs(settled, last), Some(NextAnswer(raw, last).item));
    }
  }

  /** Looking ahead keeps a state sound and loses no key. */
  lemma LookIsSound(inputs: seq<Input>, last: Option<Item>)
    requires IsSound(inputs, last)
    ensures IsSound(SettleAll(inputs, last), last)
    ensures KeysToCome(SettleAll(inputs, last), last) == KeysToCome(inputs, last)
    ensures NextAnswer(SettleAll(inputs, last), last) == NextAnswer(inputs, last)
  {
    var settled := SettleAll(inputs, last);
    assert UnfoldInputs(inputs);
    SettledGoesOn(inputs, last);
    SettledIsFresh(inputs, last);
    AlikeFound(SettleAll(settled, last), settled, last);
    AlikeLossless(settled, SettleAll(settled, last));
    assert IsSoundAll(settled, last);
  }

  lemma AlikeLossless(a: seq<Input>, b: seq<Input>)
    requires AreAlike(a, b)
    ensures Lossless(a) <==> Lossless(b)
    ensures KeysLeft(a) == KeysLeft(b)
  {
    forall j: nat | j <= |a| ensures ShownBefore(a, j) == ShownBefore(b, j) {
      AlikeShown(a, b, j);
    }
    forall j, p, k ensures IsTakenAt(a, j, p, k) <==> IsTakenAt(b, j, p, k) {}
    forall j, p, k ensures IsRegained(a, j, p, k) <==> IsRegained(b, j, p, k) {}
    assert Left(a) == Left(b) by {
      forall x ensures x in Left(a) <==> x in Left(b) {
        if x in Left(a) {
          var i :| 0 <= i < |a| && a[i].Input? && x in a[i].items;
          assert x in Items(b[i]);
        }
        if x in Left(b) {
          var i :| 0 <= i < |b| && b[i].Input? && x in b[i].items;
          assert x in Items(a[i]);
        }
      }
    }
  }

  lemma {:induction false} AlikeShown(a: seq<Input>, b: seq<Input>, j: nat)
    requires AreAlike(a, b) && j <= |a|
    ensures ShownBefore(a, j) == ShownBefore(b, j)
  {
    if j > 0 {
      AlikeShown(a, b, j - 1);
    }
  }

  /** The keys after a step: all but the least, if what is lost with that is left elsewhere. */
  lemma KeysAfterStep(inputs: seq<Input>, m: nat, after: seq<Input>)
    requires AllByKey(inputs) && IsFloor(inputs, m) && StepsTo(inputs, m, after)
    ensures KeysLeft(after) <= KeysLeft(inputs) - {m}
    ensures (forall j, k :: LosesAt(inputs, m, j, k) ==> k in KeysLeft(after)) ==>
            KeysLeft(after) == KeysLeft(inputs) - {m}
  {
    forall k | k in KeysLeft(after) ensures k in KeysLeft(inputs) - {m} {
      KeyIsLeft(after, k);
      var i :| HasKey(after, i, k);
      FloorAt(inputs, m, i);
      RestAbove(Items(inputs[i]), m, ShownBefore(inputs, i));
      RestIsPart(Items(inputs[i]), m, ShownBefore(inputs, i));
      assert HasKey(inputs, i, k);
      KeyIsLeft(inputs, k);
    }
    if forall j, k :: LosesAt(inputs, m, j, k) ==> k in KeysLeft(after) {
      forall k | k in KeysLeft(inputs) && k != m ensures k in KeysLeft(after) {
        KeyIsLeft(inputs, k);
        var i :| HasKey(inputs, i, k);
        if StartsWith(Items(inputs[i]), m) {
          KeysAccountedFor(Items(inputs[i]), m in ShownBefore(inputs, i), k);
          assert LosesAt(inputs, m, i, k) || HasKey(after, i, k);
        } else {
          assert HasKey(after, i, k);
        }
        KeyIsLeft(after, k);
      }
    }
  }

  lemma RestIsPart(items: seq<Item>, m: nat, others: set<nat>)
    ensures KeysOf(RestOf(items, m, others)) <= KeysOf(items)
  {
    if StartsWith(items, m) {
      AfterFirstIsSuffix(items, m in others);
    }
  }

  /** From a sound state the merge yields the least key to come, and stays sound. */
  lemma SoundStep(inputs: seq<Input>, last: Option<Item>)
    requires IsSound(inputs, last)
    ensures KeysToCome(inputs, last) == {} ==> NextAnswer(inputs, last) == Done
    ensures KeysToCome(inputs, last) != {} ==>
      && NextAnswer(inputs, last).Yields?
      && var x := NextAnswer(inputs, last).item;
      && x.key in KeysToCome(inputs, last) && (forall k :: k in KeysToCome(inputs, last) ==> x.key <= k) &&
         Above(x, last)
      && IsSound(NextInputs(inputs, last), Some(x))
      && KeysToCome(NextInputs(inputs, last), Some(x)) == KeysToCome(inputs, last) - {x.key}
  {
    var settled := SettleAll(inputs, last);
    assert UnfoldInputs(inputs);
    SettledIsFresh(inputs, last);
    SettledGoesOn(inputs, last);
    if KeysLeft(settled) == {} {
      NothingToYield(settled, last);
    } else {
      var idx := FreshStep(settled, last);
      var x := Items(settled[idx])[0];
      StepIsSound(settled, last, idx, NextInputs(inputs, last));
      forall k | k in KeysLeft(settled) ensures x.key <= k {
        KeyIsLeft(settled, k);
        var h :| HasKey(settled, h, k);
      }
    }
  }

  lemma NothingToYield(inputs: seq<Input>, last: Option<Item>)
    requires IsFresh(inputs, last) && KeysLeft(inputs) == {}
    ensures NextAnswer(inputs, last) == Done
  {
    forall j: nat | j < |inputs| ensures !IsReady(inputs[j], last) && !IsOutOfOrder(inputs[j], last) {
      FreshSettles(inputs, last, j);
      if Items(inputs[j]) != [] {
        HeadIsLeft(inputs, j);
      }
    }
    LookForNothing(inputs, last);
  }

  lemma StepIsSound(settled: seq<Input>, last: Option<Item>, idx: nat, raw: seq<Input>)
    requires IsFresh(settled, last) && Lossless(settled) && IsFirst(settled, idx) && TakenFrom(settled, idx, raw)
    ensures var x := Items(settled[idx])[0];
            IsSound(raw, Some(x)) && KeysToCome(raw, Some(x)) == KeysLeft(settled) - {x.key}
  {
    var x := Items(settled[idx])[0];
    StepSettles(settled, last, idx, raw);
    StepsAfter(settled, x, raw);
    var after := SettleAll(raw, Some(x));
    LosslessSteps(settled, x.key, after);
    RegainedUndisturbed(settled, x, raw);
    TakenByKey(settled, idx, raw);
    forall j, k | LosesAt(settled, x.key, j, k) ensures k in KeysLeft(after) {
      LosesAKey(settled, x.key, j, k);
      RegainedIsLeft(settled, x.key, after, j, k);
    }
    KeysAfterStep(settled, x.key, after);
    assert IsSoundAll(raw, Some(x));
  }

  lemma TakenByKey(inputs: seq<Input>, idx: nat, raw: seq<Input>)
    requires AllByKey(inputs) && TakenFrom(inputs, idx, raw)
    ensures AllByKey(raw)
  {
    forall j: nat | j < |raw| ensures ByKey(Items(raw[j])) {
      assert ByKey(Items(inputs[j]));
    }
  }

  /** A run from a sound state yields every key to come, once and in order. */
  lemma {:induction false} SoundRun(inputs: seq<Input>, last: Option<Item>)
    requires IsSound(inputs, last)
    ensures IsExactRun(Run(inputs, last), KeysToCome(inputs, last))
    decreases Size(inputs)
  {
    SoundStep(inputs, last);
    if KeysToCome(inputs, last) != {} {
      var x := NextAnswer(inputs, last).item;
      NextShrinks(inputs, last);
      SoundRun(NextInputs(inputs, last), Some(x));
      OneMoreKey(x, Run(NextInputs(inputs, last), Some(x)).items, KeysToCome(inputs, last));
    }
  }

  lemma OneMoreKey(x: Item, more: seq<Item>, keys: set<nat>)
    requires StrictlyByKey(more) && KeysOf(more) == keys - {x.key} && x.key in keys && forall k :: k in keys ==>
             x.key <= k
    ensures StrictlyByKey([x] + more) && KeysOf([x] + more) == keys
  {
    forall i | 0 <= i < |more| ensures x.key < more[i].key {
      assert more[i] in more;
      assert more[i].key in KeysOf(more);
    }
    KeysOfCons(x, more);
  }

  lemma KeysOfCons(x: Item, more: seq<Item>)
    ensures KeysOf([x] + more) == {x.key} + KeysOf(more)
  {
    assert forall y :: y in [x] + more <==> y == x || y in more;
  }

  /** The least of the keys, or done if there is none. */
  ghost predicate IsExact(r: Answer, keys: set<nat>) {
    if keys == {} then r == Done else r.Yields? && r.item.key in keys && forall k :: k in keys ==> r.item.key <= k
  }

  /** At the end the state stays sound. */
  lemma SoundEnd(inputs: seq<Input>, last: Option<Item>)
    requires IsSound(inputs, last) && KeysToCome(inputs, last) == {}
    ensures LookFor(inputs, last) == NoneLeft
    ensures IsSound(NextInputs(inputs, last), last) && KeysToCome(NextInputs(inputs, last), last) == {}
  {
    var settled := SettleAll(inputs, last);
    assert UnfoldInputs(inputs);
    SettledIsFresh(inputs, last);
    NothingToYield(settled, last);
    if LookFor(settled, last).At? {
      FreshNext(settled, last, LookFor(settled, last).idx);
    }
    LookIsSound(inputs, last);
  }

  /** What the next answer is from a sound state, and what is sound after it. */
  lemma SoundNext(inputs: seq<Input>, last: Option<Item>)
    requires IsSound(inputs, last)
    ensures var r := NextAnswer(inputs, last);
            && IsExact(r, KeysToCome(inputs, last)) && !r.Fails?
            && IsSound(NextInputs(inputs, last), if r.Yields? then Some(r.item) else last)
            && KeysToCome(NextInputs(inputs, last), if r.Yields? then Some(r.item) else last) ==
               (if r.Yields? then KeysToCome(inputs, last) - {r.item.key} else {})
  {
    SoundStep(inputs, last);
    if KeysToCome(inputs, last) == {} {
      SoundEnd(inputs, last);
    }
  }

  lemma SoundLook(inputs: seq<Input>, last: Option<Item>)
    requires IsSound(inputs, last)
    ensures var settled := SettleAll(inputs, last);
            && IsExact(NextAnswer(inputs, last), KeysToCome(inputs, last))
            && IsSound(settled, last) && KeysToCome(settled, last) == KeysToCome(inputs, last)
            && NextAnswer(settled, last) == NextAnswer(inputs, last)
  {
    SoundNext(inputs, last);
    LookIsSound(inputs, last);
  }

  /** Whatever a run yields, its keys are among those left and above the last one. */
  lemma {:induction false} RunYieldsAbove(inputs: seq<Input>, last: Option<Item>)
    requires AllByKey(inputs)
    ensures forall x :: x in Run(inputs, last).items ==> x in Left(inputs) && Above(x, last)
    decreases Size(inputs)
  {
    if NextAnswer(inputs, last).Yields? {
      NextShrinks(inputs, last);
      YieldsIncrease(inputs, last);
      RunYieldsAbove(NextInputs(inputs, last), Some(NextAnswer(inputs, last).item));
    }
  }

  /** If the search is disturbed by a row that is lost, the key of that row is never yielded. */
  lemma DisturbedLosesAKey(inputs: seq<Input>, x: Item, raw: seq<Input>) returns (k: nat)
    requires AllByKey(inputs) && IsFloor(inputs, x.key) && AllSettle(inputs, x, raw) && AllByKey(raw)
    requires !IsUndisturbed(raw, Some(x))
    ensures k in KeysLeft(inputs) && k != x.key && k !in KeysOf(Run(raw, Some(x)).items)
  {
    var j := DisturbedAt(inputs, x, raw);
    k := LostAt(inputs, x.key, j).value;
    LostHead(inputs, x, raw, j, k);
    RunOverleaps(raw, Some(x), j, k);
  }

  /** A lost row is seen as the head of its input. */
  lemma LostHead(inputs: seq<Input>, x: Item, raw: seq<Input>, j: nat, k: nat)
    requires AllByKey(inputs) && AllSettle(inputs, x, raw) && j < |inputs| && LostAt(inputs, x.key, j) == Some(k)
    ensures IsReady(raw[j], Some(x)) && HeadOf(raw[j], Some(x)).key == k
    ensures var rest := Items(AfterSettle(raw[j], Some(x))); rest != [] ==> k < rest[0].key
    ensures k in KeysLeft(inputs) && k > x.key
  {
    assert SettlesAs(raw[j], x, LeftAfter(inputs, x.key, j), LostAt(inputs, x.key, j));
    assert LosesAt(inputs, x.key, j, k);
    LosesAKey(inputs, x.key, j, k);
    KeyIsLeft(inputs, k);
  }

  /** If the input that is found goes on above `k`, or with nothing, then `k` is not yielded any more. */
  lemma RunOverleaps(raw: seq<Input>, last: Option<Item>, j: nat, k: nat)
    requires AllByKey(raw) && LookFor(raw, last) == At(j)
    requires var rest := Items(AfterSettle(raw[j], last)); rest != [] ==> k < rest[0].key
    ensures k !in KeysOf(Run(raw, last).items)
  {
    if NextAnswer(raw, last).Yields? {
      var y := NextAnswer(raw, last).item;
      var more := Run(NextInputs(raw, last), Some(y)).items;
      YieldsIncrease(raw, last);
      RunYieldsAbove(NextInputs(raw, last), Some(y));
      KeysOfCons(y, more);
      NotAmong(more, k);
    }
  }

  lemma NotAmong(items: seq<Item>, k: nat)
    requires forall x :: x in items ==> k < x.key
    ensures k !in KeysOf(items)
  {}

  lemma DisturbedAt(inputs: seq<Input>, x: Item, raw: seq<Input>) returns (j: nat)
    requires AllByKey(inputs) && IsFloor(inputs, x.key) && AllSettle(inputs, x, raw)
    requires !IsUndisturbed(raw, Some(x))
    ensures j < |raw| && LookFor(raw, Some(x)) == At(j) && LostAt(inputs, x.key, j).Some?
  {
    var after := SettleAll(raw, Some(x));
    StepsAfter(inputs, x, raw);
    LookForFails(raw, Some(x));
    LookForNone(raw, Some(x));
    LookForLeast(raw, Some(x));
    forall i: nat | i < |raw|
      ensures !IsOutOfOrder(raw[i], Some(x)) && !IsOutOfOrder(after[i], Some(x))
      ensures IsReady(after[i], Some(x)) ==>
              IsReady(raw[i], Some(x)) && HeadOf(raw[i], Some(x)).key <= HeadOf(after[i], Some(x)).key
    {
      HeadsMoveUp(inputs, x, raw, i);
    }
    if LookFor(raw, Some(x)).NoneLeft? {
      LookForNothing(after, Some(x));
    } else {
      j := LookFor(raw, Some(x)).idx;
      if LostAt(inputs, x.key, j).None? {
        HeadsMoveUp(inputs, x, raw, j);
        LookForIs(after, Some(x), j);
      }
    }
  }

  lemma HeadsMoveUp(inputs: seq<Input>, x: Item, raw: seq<Input>, i: nat)
    requires AllByKey(inputs) && IsFloor(inputs, x.key) && AllSettle(inputs, x, raw) && i < |raw|
    ensures var after := SettleAll(raw, Some(x));
            && !IsOutOfOrder(raw[i], Some(x)) && !IsOutOfOrder(after[i], Some(x))
            && (IsReady(after[i], Some(x)) ==>
               IsReady(raw[i], Some(x)) && HeadOf(raw[i], Some(x)).key <= HeadOf(after[i], Some(x)).key)
            && (LostAt(inputs, x.key, i).None? && IsReady(raw[i], Some(x)) ==>
                  IsReady(after[i], Some(x)) && HeadOf(raw[i], Some(x)).key == HeadOf(after[i], Some(x)).key)
  {
    var after := SettleAll(raw, Some(x));
    StepsAfter(inputs, x, raw);
    FreshSettles(after, Some(x), i);
    assert SettlesAs(raw[i], x, LeftAfter(inputs, x.key, i), LostAt(inputs, x.key, i));
    if LostAt(inputs, x.key, i).Some? {
      assert LosesAt(inputs, x.key, i, LostAt(inputs, x.key, i).value);
      LosesAKey(inputs, x.key, i, LostAt(inputs, x.key, i).value);
    }
  }

  /** What is lost with the least key of an exact run is regained. */
  lemma LostIsRegained(inputs: seq<Input>, x: Item, raw: seq<Input>, j: nat, k: nat)
    requires AllByKey(inputs) && IsFloor(inputs, x.key) && AllSettle(inputs, x, raw) && IsUndisturbed(raw, Some(x))
    requires KeepsLost(inputs, x, SettleAll(raw, Some(x))) && Lossless(SettleAll(raw, Some(x)))
    requires LosesAt(inputs, x.key, j, k)
    ensures IsRegained(inputs, j, x.key, k)
  {
    var after := SettleAll(raw, Some(x));
    StepsAfter(inputs, x, raw);
    LosesAKey(inputs, x.key, j, k);
    LosslessShowsAll(after, k);
    IsShownToo(inputs, x.key, after, |inputs|, k);
    var i := FreshStep(after, Some(x));
    LeftNotBelow(after, i, k);
    if k > Items(after[i])[0].key {
      FirstComesBetween(inputs, x, after, i);
    } else {
      ShownFromBefore(inputs, x, raw, i, j, k);
    }
  }

  lemma ShownFromBefore(inputs: seq<Input>, x: Item, raw: seq<Input>, i: nat, j: nat, k: nat)
    requires AllByKey(inputs) && IsFloor(inputs, x.key) && AllSettle(inputs, x, raw) && LosesAt(inputs, x.key, j, k)
    requires KeepsLost(inputs, x, SettleAll(raw, Some(x)))
    requires LookFor(raw, Some(x)) == At(i) && IsFirst(SettleAll(raw, Some(x)), i)
    requires k == Items(SettleAll(raw, Some(x))[i])[0].key && k > x.key
    ensures k in ShownBefore(inputs, j)
  {
    StepsAfter(inputs, x, raw);
    FoundBefore(inputs, x, raw, i, j, k);
    HeadIsShown(SettleAll(raw, Some(x)), i, j);
    IsShownToo(inputs, x.key, SettleAll(raw, Some(x)), j, k);
  }

  /** What is lost with the key yielded is left elsewhere. */
  ghost predicate KeepsLost(inputs: seq<Input>, x: Item, after: seq<Input>) {
    forall j, k :: LosesAt(inputs, x.key, j, k) ==> k in KeysLeft(after)
  }

  lemma IsShownToo(inputs: seq<Input>, m: nat, after: seq<Input>, j: nat, k: nat)
    requires AllByKey(inputs) && IsFloor(inputs, m) && StepsTo(inputs, m, after) && j <= |inputs| && k != m
    ensures k in ShownBefore(inputs, j) <==> k in ShownBefore(after, j)
  {
    ShownSteps(inputs, m, after, j);
    AgreeOn({k}, ShownBefore(inputs, j), ShownBefore(after, j), m);
  }

  lemma LeftNotBelow(inputs: seq<Input>, i: nat, k: nat)
    requires AllByKey(inputs) && IsFirst(inputs, i) && k in KeysLeft(inputs)
    ensures k >= Items(inputs[i])[0].key
  {
    KeyIsLeft(inputs, k);
    var h :| HasKey(inputs, h, k);
    NotBelowFirst(inputs, i, h, k);
  }

  lemma HeadIsShown(inputs: seq<Input>, i: nat, j: nat)
    requires i < j <= |inputs| && Items(inputs[i]) != []
    ensures Items(inputs[i])[0].key in ShownBefore(inputs, j)
  {
    assert Items(inputs[i])[0].key in ShownAt(inputs, i);
    ShownBeforeHas(inputs, j, i, Items(inputs[i])[0].key);
  }

  lemma FirstComesBetween(inputs: seq<Input>, x: Item, after: seq<Input>, i: nat)
    requires AllByKey(inputs) && IsFloor(inputs, x.key) && StepsTo(inputs, x.key, after) && IsFresh(after, Some(x))
    requires i < |after| && Items(after[i]) != []
    ensures Items(after[i])[0].key > x.key && Items(after[i])[0].key in ShownBefore(inputs, |inputs|)
  {
    var q := Items(after[i])[0].key;
    HeadIsShown(after, i, |after|);
    FirstIsAbove(inputs, x, after, i);
    ShownSteps(inputs, x.key, after, |inputs|);
    AgreeOn({q}, ShownBefore(inputs, |inputs|), ShownBefore(after, |inputs|), x.key);
  }

  /** The input found is before one whose lost row has the same key. */
  lemma FoundBefore(inputs: seq<Input>, x: Item, raw: seq<Input>, i: nat, j: nat, k: nat)
    requires AllByKey(inputs) && IsFloor(inputs, x.key) && AllSettle(inputs, x, raw) && LosesAt(inputs, x.key, j, k)
    requires KeepsLost(inputs, x, SettleAll(raw, Some(x)))
    requires LookFor(raw, Some(x)) == At(i) && IsFirst(SettleAll(raw, Some(x)), i)
    requires k == Items(SettleAll(raw, Some(x))[i])[0].key
    ensures i < j
  {
    StepsAfter(inputs, x, raw);
    LookForLeast(raw, Some(x));
    LostHead(inputs, x, raw, j, k);
    NoneLostAtFirst(inputs, x, raw, i);
    KeptHead(inputs, x, raw, i);
    LeastIsBefore(raw, Some(x), i, j, k);
  }

  lemma LeastIsBefore(raw: seq<Input>, last: Option<Item>, i: nat, j: nat, k: nat)
    requires IsLeast(raw, last, i) && HeadOf(raw[i], last).key == k
    requires j < |raw| && j != i && IsReady(raw[j], last) && HeadOf(raw[j], last).key == k
    ensures i < j
  {}

  lemma KeptHead(inputs: seq<Input>, x: Item, raw: seq<Input>, i: nat)
    requires AllSettle(inputs, x, raw) && i < |inputs| && LostAt(inputs, x.key, i).None? && IsReady(raw[i], Some(x))
    ensures var rest := Items(AfterSettle(raw[i], Some(x))); rest != [] && HeadOf(raw[i], Some(x)).key == rest[0].key
  {
    assert SettlesAs(raw[i], x, LeftAfter(inputs, x.key, i), LostAt(inputs, x.key, i));
  }

  lemma NoneLostAtFirst(inputs: seq<Input>, x: Item, raw: seq<Input>, i: nat)
    requires AllByKey(inputs) && IsFloor(inputs, x.key) && AllSettle(inputs, x, raw)
    requires KeepsLost(inputs, x, SettleAll(raw, Some(x))) && IsFirst(SettleAll(raw, Some(x)), i)
    ensures LostAt(inputs, x.key, i).None?
  {
    var after := SettleAll(raw, Some(x));
    StepsAfter(inputs, x, raw);
    if LostAt(inputs, x.key, i).Some? {
      var k := LostAt(inputs, x.key, i).value;
      LostHead(inputs, x, raw, i, k);
      assert LosesAt(inputs, x.key, i, k);
      LeftNotBelow(after, i, k);
      assert false;
    }
  }

  lemma FirstIsAbove(inputs: seq<Input>, x: Item, after: seq<Input>, i: nat)
    requires IsFresh(after, Some(x)) && i < |after| && Items(after[i]) != []
    ensures Items(after[i])[0].key > x.key
  {}

  lemma {:induction false} ExactMeansLossless(inputs: seq<Input>, last: Option<Item>)
    requires IsFresh(inputs, last) && IsExactRun(Run(inputs, last), KeysLeft(inputs))
    ensures Lossless(inputs)
    decreases Size(inputs)
  {
    if KeysLeft(inputs) == {} {
      EmptyIsLossless(inputs);
    } else {
      var idx := FreshStep(inputs, last);
      var x, raw := Items(inputs[idx])[0], NextInputs(inputs, last);
      StepSettles(inputs, last, idx, raw);
      TakenByKey(inputs, idx, raw);
      ExactGoesOn(inputs, x, raw, Run(raw, Some(x)));
      var after := SettleAll(raw, Some(x));
      StepsAfter(inputs, x, raw);
      NextShrinks(inputs, last);
      SettleShrinks(raw, Some(x));
      SizeLess(after, raw);
      ExactMeansLossless(after, Some(x));
      AllIsRegained(inputs, x, raw);
      LosslessSteps(inputs, x.key, after);
    }
  }

  lemma AllIsRegained(inputs: seq<Input>, x: Item, raw: seq<Input>)
    requires AllByKey(inputs) && IsFloor(inputs, x.key) && AllSettle(inputs, x, raw) && IsUndisturbed(raw, Some(x))
    requires var after := SettleAll(raw, Some(x)); Lossless(after) && KeysLeft(after) == KeysLeft(inputs) - {x.key}
    ensures RegainsAll(inputs, x.key)
  {
    forall j, k | LosesAt(inputs, x.key, j, k) ensures k in KeysLeft(inputs) && k != x.key {
      LosesAKey(inputs, x.key, j, k);
      KeyIsLeft(inputs, k);
    }
    assert KeepsLost(inputs, x, SettleAll(raw, Some(x)));
    forall j, k | LosesAt(inputs, x.key, j, k) ensures IsRegained(inputs, j, x.key, k) {
      LostIsRegained(inputs, x, raw, j, k);
    }
  }

  lemma EmptyIsLossless(inputs: seq<Input>)
    requires KeysLeft(inputs) == {}
    ensures Lossless(inputs)
  {
    forall j: nat | j < |inputs| ensures Items(inputs[j]) == [] {
      if Items(inputs[j]) != [] {
        HeadIsLeft(inputs, j);
      }
    }
  }

  /** An exact run is not disturbed, and its rest is an exact run of the settled inputs. */
  lemma ExactGoesOn(inputs: seq<Input>, x: Item, raw: seq<Input>, more: RunResult)
    requires AllByKey(inputs) && IsFloor(inputs, x.key) && AllSettle(inputs, x, raw) && AllByKey(raw)
    requires more == Run(raw, Some(x)) && IsExactRun(RunResult([x] + more.items, more.end), KeysLeft(inputs))
    ensures IsUndisturbed(raw, Some(x))
    ensures var after := SettleAll(raw, Some(x));
            KeysLeft(after) == KeysLeft(inputs) - {x.key} && IsExactRun(Run(after, Some(x)), KeysLeft(after))
  {
    RestOfExact(x, more, KeysLeft(inputs));
    if !IsUndisturbed(raw, Some(x)) {
      var k := DisturbedLosesAKey(inputs, x, raw);
      assert false;
    }
    var after := SettleAll(raw, Some(x));
    StepsAfter(inputs, x, raw);
    InOrderAfter(inputs, x, raw);
    SettledGoesOn(raw, Some(x));
    RunYieldsAbove(after, Some(x));
    KeysAfterStep(inputs, x.key, after);
    KeysOfPart(more.items, after);
  }

  lemma InOrderAfter(inputs: seq<Input>, x: Item, raw: seq<Input>)
    requires AllSettle(inputs, x, raw)
    ensures !LookFor(raw, Some(x)).NotInOrder?
  {
    forall j: nat | j < |raw| ensures !IsOutOfOrder(raw[j], Some(x)) {
      assert SettlesAs(raw[j], x, LeftAfter(inputs, x.key, j), LostAt(inputs, x.key, j));
    }
    LookForFails(raw, Some(x));
  }

  lemma RestOfExact(x: Item, more: RunResult, keys: set<nat>)
    requires IsExactRun(RunResult([x] + more.items, more.end), keys)
    ensures IsExactRun(more, keys - {x.key})
  {
    KeysOfCons(x, more.items);
    forall i | 0 <= i < |more.items| ensures x.key < more.items[i].key {
      assert ([x] + more.items)[0] == x && ([x] + more.items)[i + 1] == more.items[i];
    }
    NotAmong(more.items, x.key);
    forall i, j | 0 <= i < j < |more.items| ensures more.items[i].key < more.items[j].key {
      assert ([x] + more.items)[i + 1] == more.items[i] && ([x] + more.items)[j + 1] == more.items[j];
    }
  }

  lemma KeysOfPart(items: seq<Item>, inputs: seq<Input>)
    requires forall x :: x in items ==> x in Left(inputs)
    ensures KeysOf(items) <= KeysLeft(inputs)
  {
    forall k | k in KeysOf(items) ensures k in KeysLeft(inputs) {
      var y :| y in items && y.key == k;
      assert y in Left(inputs);
    }
  }

  /** Ascending inputs are merged into all of their keys, each once, if and only if every key that is taken
      along from one of them is regained from another. */
  lemma MergedIffLossless(inputs: seq<Input>)
    requires AllByKey(inputs)
    ensures IsExactRun(Run(inputs, None), KeysLeft(inputs)) <==> Lossless(inputs)
    ensures Lossless(inputs) ==> IsSound(inputs, None) && KeysToCome(inputs, None) == KeysLeft(inputs)
  {
    assert IsFresh(inputs, None);
    forall j: nat | j < |inputs| { FreshSettles(inputs, None, j); }
    LookForFails(inputs, None);
    var settled := SettleAll(inputs, None);
    AlikeLossless(settled, inputs);
    AlikeFound(settled, inputs, None);
    if Lossless(inputs) {
      assert IsSoundAll(inputs, None);
      SoundRun(inputs, None);
    }
    if IsExactRun(Run(inputs, None), KeysLeft(inputs)) {
      ExactMeansLossless(inputs, None);
    }
  }

  // ----- forgetting the inputs that are done changes nothing

  /** The place of input `i` among those that are not forgotten. */
  function Slot(inputs: seq<Input>, i: nat): nat
    requires i <= |inputs|
  {
    |WithoutNil(inputs[..i])|
  }

  lemma {:induction false} SlotHolds(inputs: seq<Input>, i: nat)
    requires i < |inputs| && inputs[i].Input?
    ensures Slot(inputs, i) < |WithoutNil(inputs)| && WithoutNil(inputs)[Slot(inputs, i)] == inputs[i]
    decreases |inputs|
  {
    var n := |inputs| - 1;
    if i < n {
      assert inputs[..n][..i] == inputs[..i];
      SlotHolds(inputs[..n], i);
    }
  }

  /** What was found among all inputs, as found among those that are not forgotten. */
  function Shift(inputs: seq<Input>, r: Found): Found
    requires r.At? ==> r.idx < |inputs|
  {
    if r.At? then At(Slot(inputs, r.idx)) else r
  }

  /** The choice depends on the best so far and the last input only. */
  lemma BetterAlike(a: seq<Input>, b: seq<Input>, last: Option<Item>, before: Found, before': Found)
    requires a != [] && b != [] && a[|a| - 1] == b[|b| - 1] && before.NoneLeft? == before'.NoneLeft? &&
             before.At? == before'.At?
    requires !before.NotInOrder?
    requires before.At? ==>
               && before.idx < |a| - 1 && before'.idx < |b| - 1
               && a[before.idx] == b[before'.idx] && IsReady(a[before.idx], last)
    ensures var r, r' := Better(a, last, before), Better(b, last, before');
            if r.NotInOrder? then r' == r
            else if r == before then r' == before'
            else r == At(|a| - 1) && r' == At(|b| - 1)
  {}

  lemma SlotOfLonger(front: seq<Input>, input: Input, i: nat)
    requires i <= |front|
    ensures Slot(front + [input], i) == Slot(front, i)
  {
    assert (front + [input])[..i] == front[..i];
  }

  lemma LookForSplit(front: seq<Input>, input: Input, last: Option<Item>)
    ensures var before := LookFor(front, last);
            LookFor(front + [input], last) == if before.NotInOrder? then NotInOrder
                else Better(front + [input], last, before)
  {
    assert (front + [input])[..|front|] == front;
  }

  lemma FoundOneMore(front: seq<Input>, input: Input, last: Option<Item>)
    requires LookFor(front, last).At? ==> front[LookFor(front, last).idx].Input?
    requires LookFor(WithoutNil(front), last) == Shift(front, LookFor(front, last))
    ensures var all := front + [input]; LookFor(WithoutNil(all), last) == Shift(all, LookFor(all, last))
  {
    var kept, before := WithoutNil(front), LookFor(front, last);
    LookForSplit(front, input, last);
    LookForSplit(kept, input, last);
    WithoutNilSplit(front, input);
    SlotOfLonger(front, input, |front|);
    assert front[..|front|] == front;
    if before.At? {
      SlotOfLonger(front, input, before.idx);
      SlotHolds(front, before.idx);
    }
    if input.Input? && !before.NotInOrder? {
      BetterAlike(front + [input], kept + [input], last, before, Shift(front, before));
    }
  }

  lemma {:induction false} FoundWithoutNil(inputs: seq<Input>, last: Option<Item>)
    ensures LookFor(inputs, last).At? ==> inputs[LookFor(inputs, last).idx].Input?
    ensures LookFor(WithoutNil(inputs), last) == Shift(inputs, LookFor(inputs, last))
    decreases |inputs|
  {
    if inputs != [] {
      var n := |inputs| - 1;
      FoundWithoutNil(inputs[..n], last);
      FoundOneMore(inputs[..n], inputs[n], last);
      assert inputs == inputs[..n] + [inputs[n]];
    }
  }

  lemma {:induction false} SettledWithoutNil(inputs: seq<Input>, last: Option<Item>)
    ensures WithoutNil(SettleAll(WithoutNil(inputs), last)) == WithoutNil(SettleAll(inputs, last))
    decreases |inputs|
  {
    if inputs != [] {
      var n := |inputs| - 1;
      SettledWithoutNil(inputs[..n], last);
      SettleAllSplit(inputs[..n], inputs[n], last);
      assert inputs == inputs[..n] + [inputs[n]];
      WithoutNilSplit(inputs[..n], inputs[n]);
      WithoutNilSplit(SettleAll(inputs[..n], last), AfterSettle(inputs[n], last));
      if inputs[n].Input? {
        SettleAllSplit(WithoutNil(inputs[..n]), inputs[n], last);
        WithoutNilSplit(SettleAll(WithoutNil(inputs[..n]), last), AfterSettle(inputs[n], last));
      }
    }
  }

  lemma SettleAllSplit(front: seq<Input>, input: Input, last: Option<Item>)
    ensures SettleAll(front + [input], last) == SettleAll(front, last) + [AfterSettle(input, last)]
  {}

  lemma WithoutNilSplit(front: seq<Input>, input: Input)
    ensures WithoutNil(front + [input]) == if input.Nil? then WithoutNil(front) else WithoutNil(front) + [input]
  {
    assert (front + [input])[..|front|] == front;
  }

  lemma {:induction false} TakenWithoutNil(inputs: seq<Input>, last: Option<Item>, i: nat, y: Input)
    requires i < |inputs| && inputs[i].Input? && y.Input?
    ensures Slot(inputs, i) < |WithoutNil(inputs)|
    ensures WithoutNil(SettleAll(WithoutNil(inputs), last)[Slot(inputs, i) := y]) ==
            WithoutNil(SettleAll(inputs, last)[i := y])
    decreases |inputs|
  {
    var n := |inputs| - 1;
    var front, input := inputs[..n], inputs[n];
    assert inputs == front + [input] && inputs[..i] == if i < n then front[..i] else front;
    WithoutNilSplit(front, input);
    if i < n {
      TakenWithoutNil(front, last, i, y);
      SettleOneMore(front, input, last, i, y);
      SettleOneMore(WithoutNil(front), input, last, Slot(inputs, i), y);
    } else {
      SettledWithoutNil(front, last);
      SettleTheLast(front, input, last, y);
      SettleTheLast(WithoutNil(front), input, last, y);
    }
  }

  lemma SettleOneMore(front: seq<Input>, input: Input, last: Option<Item>, i: nat, y: Input)
    requires i < |front|
    ensures var after, a := AfterSettle(input, last), SettleAll(front, last)[i := y];
            WithoutNil(SettleAll(front + [input], last)[i := y]) == if after.Nil? then WithoutNil(a)
                else WithoutNil(a) + [after]
  {
    var after := AfterSettle(input, last);
    SettleAllSplit(front, input, last);
    assert (SettleAll(front, last) + [after])[i := y] == SettleAll(front, last)[i := y] + [after];
    WithoutNilSplit(SettleAll(front, last)[i := y], after);
  }

  lemma SettleTheLast(front: seq<Input>, input: Input, last: Option<Item>, y: Input)
    requires y.Input?
    ensures WithoutNil(SettleAll(front + [input], last)[|front| := y]) == WithoutNil(SettleAll(front, last)) + [y]
  {
    var after := AfterSettle(input, last);
    SettleAllSplit(front, input, last);
    assert (SettleAll(front, last) + [after])[|front| := y] == SettleAll(front, last) + [y];
    WithoutNilSplit(SettleAll(front, last), y);
  }

  lemma NextWithoutNil(inputs: seq<Input>, last: Option<Item>)
    ensures NextAnswer(WithoutNil(inputs), last) == NextAnswer(inputs, last)
    ensures WithoutNil(NextInputs(WithoutNil(inputs), last)) == WithoutNil(NextInputs(inputs, last))
  {
    FoundWithoutNil(inputs, last);
    SettledWithoutNil(inputs, last);
    var r := LookFor(inputs, last);
    if r.At? {
      SlotHolds(inputs, r.idx);
      var rest := AfterSettle(inputs[r.idx], last).items;
      if rest != [] {
        TakenWithoutNil(inputs, last, r.idx, Input(rest[1..]));
      }
    }
  }

  /** Two states that hold the same inputs but those that are done go on alike. */
  lemma NextTogether(a: seq<Input>, b: seq<Input>, last: Option<Item>)
    requires WithoutNil(a) == WithoutNil(b)
    ensures NextAnswer(a, last) == NextAnswer(b, last) == NextAnswer(WithoutNil(a), last)
    ensures WithoutNil(NextInputs(WithoutNil(a), last)) == WithoutNil(NextInputs(b, last))
    ensures WithoutNil(SettleAll(WithoutNil(a), last)) == WithoutNil(SettleAll(b, last))
    ensures LookFor(WithoutNil(a), last).NotInOrder? <==> LookFor(b, last).NotInOrder?
  {
    NextWithoutNil(a, last);
    NextWithoutNil(b, last);
    SettledWithoutNil(a, last);
    SettledWithoutNil(b, last);
    FoundWithoutNil(b, last);
  }

  // ----- what every run yields, and inputs whose keys never repeat

  lemma {:induction false} RunAscends(inputs: seq<Input>, last: Option<Item>)
    requires AllByKey(inputs)
    ensures StrictlyByKey(Run(inputs, last).items)
    decreases Size(inputs)
  {
    if NextAnswer(inputs, last).Yields? {
      var x := NextAnswer(inputs, last).item;
      NextShrinks(inputs, last);
      YieldsIncrease(inputs, last);
      RunAscends(NextInputs(inputs, last), Some(x));
      RunYieldsAbove(NextInputs(inputs, last), Some(x));
      var more := Run(NextInputs(inputs, last), Some(x)).items;
      forall i | 0 <= i < |more| ensures x.key < more[i].key {
        assert more[i] in more;
      }
    }
  }

  /** Inputs without a key that repeats, in one of them or in two, are merged without loss. */
  lemma SeparateIsLossless(inputs: seq<Input>)
    requires forall i :: 0 <= i < |inputs| ==> StrictlyByKey(Items(inputs[i]))
    requires forall i, j, k :: HasKey(inputs, i, k) && HasKey(inputs, j, k) ==> i == j
    ensures Lossless(inputs)
  {
    forall j: nat, p, k | j < |inputs| ensures !IsTakenAt(inputs, j, p, k) {
      forall q | q in KeysOf(Items(inputs[j])) ensures q !in ShownBefore(inputs, j) {
        if q in ShownBefore(inputs, j) {
          var i := ShownIsLeft(inputs, j, q);
          assert HasKey(inputs, j, q);
        }
      }
      NothingTaken(Items(inputs[j]), ShownBefore(inputs, j), p, k);
    }
  }

  lemma {:induction false} NothingTaken(items: seq<Item>, others: set<nat>, p: nat, k: nat)
    requires StrictlyByKey(items) && KeysOf(items) !! others
    ensures !IsTaken(items, others, p, k)
  {
    if items != [] {
      assert items[0] in items;
      assert items[0].key in KeysOf(items);
      FirstAlone(items);
      assert KeysOf(items[1..]) <= KeysOf(items);
      NothingTaken(items[1..], others, p, k);
    }
  }

  // ----- examples

  /** The second row of a key takes along the row after it: the run ends early, without failure. */
  lemma RepeatedKeyEndsTheRun(a: nat, b: nat, c: nat)
    ensures var inputs := [Input([]), Input([Item(1, a), Item(1, b), Item(2, c)])];
            Run(inputs, None) == RunResult([Item(1, a)], Done) && !Lossless(inputs)
  {
    var inputs, last := [Input([]), Input([Item(1, a), Item(1, b), Item(2, c)])], Some(Item(1, a));
    assert inputs[..1] == [inputs[0]] && inputs[..1][..0] == [];
    assert LookFor(inputs[..1], None) == NoneLeft;
    assert LookFor(inputs, None) == At(1);
    var raw := [Nil, Input([Item(1, b), Item(2, c)])];
    assert NextInputs(inputs, None) == raw;
    TakesAlong(Item(1, b), Item(2, c), last);
    assert raw[..1] == [Nil] && raw[..1][..0] == [];
    assert LookFor(raw[..1], last) == NoneLeft;
    assert LookFor(raw, last) == At(1);
    assert NextAnswer(raw, last) == Done;
    if Lossless(inputs) {
      MergedIffLossless(inputs);
      assert HasKey(inputs, 1, 2) by { assert Item(2, c) in inputs[1].items; }
      KeyIsLeft(inputs, 2);
      assert false;
    }
  }

  lemma TakesAlong(x: Item, y: Item, last: Option<Item>)
    requires last.Some? && x.key == last.value.key < y.key
    ensures Settle([x, y], last) == Ready(y, Input([]))
  {
    assert [x, y][1..] == [y] && [y][1..] == [];
    assert SkipKey([x, y], x.key) == [y];
  }

  /** An input that repeats a key of an input before it loses the row after that key. */
  lemma SharedKeyLosesTheNext(a: nat, b: nat, c: nat)
    ensures var inputs := [Input([Item(1, a)]), Input([Item(1, b), Item(2, c)])];
            Run(inputs, None) == RunResult([Item(1, a)], Done) && !Lossless(inputs)
  {
    var inputs, last := [Input([Item(1, a)]), Input([Item(1, b), Item(2, c)])], Some(Item(1, a));
    assert inputs[..1] == [inputs[0]] && inputs[..1][..0] == [];
    assert LookFor(inputs[..1], None) == At(0);
    assert LookFor(inputs, None) == At(0);
    var raw := [Input([]), Input([Item(1, b), Item(2, c)])];
    assert SettleAll(inputs, None) == inputs && [Item(1, a)][1..] == [];
    assert NextInputs(inputs, None) == raw;
    TakesAlong(Item(1, b), Item(2, c), last);
    assert raw[..1] == [raw[0]] && raw[..1][..0] == [];
    assert LookFor(raw[..1], last) == NoneLeft;
    assert LookFor(raw, last) == At(1);
    assert NextAnswer(raw, last) == Done;
    if Lossless(inputs) {
      MergedIffLossless(inputs);
      assert HasKey(inputs, 1, 2) by { assert Item(2, c) in inputs[1].items; }
      KeyIsLeft(inputs, 2);
      assert false;
    }
  }
}
