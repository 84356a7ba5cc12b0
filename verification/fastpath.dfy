/** The fast path that lists every object a user reaches through a rewrite: it compiles the rewrite
    into a pipeline of set operations over sorted streams (weight_two_resolver.go). */
module FastPath {
  import opened Model
  import opened Streams
  import opened Merge
  import opened Bags
  import opened SetOperations
  import LeafReads
  import Iterators

  type Rows = LeafReads.Rows

  /** Orders the relations so that a computed reference always goes down. */
  type Rank = (TypeName, RelationName) -> nat

  /** Computed references are defined and go down in rank, and an intersection has an operand. */
  ghost predicate Compilable(e: Env, rank: Rank, t: TypeName, bound: nat, rw: Rewrite)
    decreases rw
  {
    match rw
    case This => true
    case Computed(r) => Defined(e, t, r) && rank(t, r) < bound
    case TupleToUserset(_, _) => true
    case Union(cs) => forall i :: 0 <= i < |cs| ==> Compilable(e, rank, t, bound, cs[i])
    case Intersection(cs) => cs != [] && forall i :: 0 <= i < |cs| ==> Compilable(e, rank, t, bound, cs[i])
    case Difference(b, s) => Compilable(e, rank, t, bound, b) && Compilable(e, rank, t, bound, s)
  }

  ghost predicate Acyclic(e: Env, rank: Rank) {
    forall t, r :: Defined(e, t, r) ==> Compilable(e, rank, t, rank(t, r), RewriteOf(e, t, r))
  }

  // ----- what a rewrite denotes

  /** The objects of type `t` that the fast path lists for the rewrite `rw` of relation `r`, as often as
      it lists them, if no read fails. */
  ghost function BagOf(e: Env, rank: Rank, rows: Rows, t: TypeName, r: RelationName, rw: Rewrite): Bag
    requires Acyclic(e, rank) && Compilable(e, rank, t, rank(t, r), rw)
    decreases rank(t, r), rw
  {
    match rw
    case This => multiset(LeafReads.LeafList(rows(t, r)))
    case Computed(c) => BagOf(e, rank, rows, t, c, RewriteOf(e, t, c))
    case TupleToUserset(_, _) => multiset{}
    case Union(cs) => Join(BagsOf(e, rank, rows, t, r, cs))
    case Intersection(cs) => Meet(BagsOf(e, rank, rows, t, r, cs))
    case Difference(b, s) => BagOf(e, rank, rows, t, r, b) - BagOf(e, rank, rows, t, r, s)
  }

  ghost function BagsOf(e: Env, rank: Rank, rows: Rows, t: TypeName, r: RelationName,
                        cs: seq<Rewrite>): (bags: seq<Bag>)
    requires Acyclic(e, rank) && forall i :: 0 <= i < |cs| ==> Compilable(e, rank, t, rank(t, r), cs[i])
    ensures |bags| == |cs|
    ensures forall i :: 0 <= i < |cs| ==> bags[i] == BagOf(e, rank, rows, t, r, cs[i])
    decreases rank(t, r), cs
  {
    if cs == [] then [] else [BagOf(e, rank, rows, t, r, cs[0])] + BagsOf(e, rank, rows, t, r, cs[1..])
  }

  /** The same rewrite read as a set: union, intersection and difference of sets of objects. */
  ghost predicate Denotes(e: Env, rank: Rank, user: Subject, t: TypeName, r: RelationName, rw: Rewrite, x: Id)
    requires Acyclic(e, rank) && Compilable(e, rank, t, rank(t, r), rw)
    decreases rank(t, r), rw
  {
    match rw
    case This => Direct(e, Goal(Object(t, x), r, user))
    case Computed(c) => Denotes(e, rank, user, t, c, RewriteOf(e, t, c), x)
    case TupleToUserset(_, _) => false
    case Union(cs) => exists i :: 0 <= i < |cs| && Denotes(e, rank, user, t, r, cs[i], x)
    case Intersection(cs) => forall i :: 0 <= i < |cs| ==> Denotes(e, rank, user, t, r, cs[i], x)
    case Difference(b, s) => Denotes(e, rank, user, t, r, b, x) && !Denotes(e, rank, user, t, r, s, x)
  }

  // ----- what is read

  /** Listing the rewrite `rw` of relation `r` reads the tuples of relation `c`. */
  ghost predicate Reads(e: Env, rank: Rank, t: TypeName, r: RelationName, rw: Rewrite, c: RelationName)
    requires Acyclic(e, rank) && Compilable(e, rank, t, rank(t, r), rw)
    decreases rank(t, r), rw
  {
    match rw
    case This => c == r
    case Computed(d) => Reads(e, rank, t, d, RewriteOf(e, t, d), c)
    case TupleToUserset(_, _) => false
    case Union(cs) => exists i :: 0 <= i < |cs| && Reads(e, rank, t, r, cs[i], c)
    case Intersection(cs) => exists i :: 0 <= i < |cs| && Reads(e, rank, t, r, cs[i], c)
    case Difference(b, s) => Reads(e, rank, t, r, b, c) || Reads(e, rank, t, r, s, c)
  }

  /** Everything that is read for the rewrite is merged without loss. */
  ghost predicate Legible(e: Env, rank: Rank, rows: Rows, t: TypeName, r: RelationName, rw: Rewrite)
    requires Acyclic(e, rank) && Compilable(e, rank, t, rank(t, r), rw)
  {
    forall c :: Reads(e, rank, t, r, rw, c) ==> LeafReads.IsLegible(rows(t, c))
  }

  /** What is read does not depend on how it is asked for.  The set operations look ahead, and after an error
      a read may be asked again, so what they read is merged without loss; a read on its own that does not
      fail is taken item by item. */
  ghost predicate Steady(e: Env, rank: Rank, rows: Rows, faulty: bool, t: TypeName, r: RelationName, rw: Rewrite)
    requires Acyclic(e, rank) && Compilable(e, rank, t, rank(t, r), rw)
    decreases rank(t, r), rw
  {
    match rw
    case This => faulty ==> LeafReads.IsLegible(rows(t, r))
    case Computed(c) => Steady(e, rank, rows, faulty, t, c, RewriteOf(e, t, c))
    case _ => Legible(e, rank, rows, t, r, rw)
  }

  lemma {:induction false} LegibleIsSteady(e: Env, rank: Rank, rows: Rows, faulty: bool, t: TypeName, r: RelationName,
                                           rw: Rewrite)
    requires Acyclic(e, rank) && Compilable(e, rank, t, rank(t, r), rw) && Legible(e, rank, rows, t, r, rw)
    ensures Steady(e, rank, rows, faulty, t, r, rw)
    decreases rank(t, r), rw
  {
    match rw
    case This => assert Reads(e, rank, t, r, rw, r);
    case Computed(c) =>
      forall d | Reads(e, rank, t, c, RewriteOf(e, t, c), d) ensures LeafReads.IsLegible(rows(t, d)) {
        assert Reads(e, rank, t, r, rw, d);
      }
      LegibleIsSteady(e, rank, rows, faulty, t, c, RewriteOf(e, t, c));
    case _ =>
  }

  /** The operands of a set operation. */
  function OperandsOf(rw: Rewrite): (cs: seq<Rewrite>)
    requires rw.Union? || rw.Intersection? || rw.Difference?
    ensures forall i :: 0 <= i < |cs| ==> cs[i] < rw
  {
    if rw.Difference? then [rw.base, rw.subtract] else rw.children
  }

  lemma OperandReads(e: Env, rank: Rank, t: TypeName, r: RelationName, rw: Rewrite, i: nat, c: RelationName)
    requires rw.Union? || rw.Intersection? || rw.Difference?
    requires Acyclic(e, rank) && Compilable(e, rank, t, rank(t, r), rw) && i < |OperandsOf(rw)|
    requires Compilable(e, rank, t, rank(t, r), OperandsOf(rw)[i])
    requires Reads(e, rank, t, r, OperandsOf(rw)[i], c)
    ensures Reads(e, rank, t, r, rw, c)
  {}

  lemma OperandIsSteady(e: Env, rank: Rank, rows: Rows, faulty: bool, t: TypeName, r: RelationName, rw: Rewrite, i: nat)
    requires rw.Union? || rw.Intersection? || rw.Difference?
    requires Acyclic(e, rank) && Compilable(e, rank, t, rank(t, r), rw) && i < |OperandsOf(rw)|
    requires Legible(e, rank, rows, t, r, rw)
    ensures Compilable(e, rank, t, rank(t, r), OperandsOf(rw)[i])
    ensures Steady(e, rank, rows, faulty, t, r, OperandsOf(rw)[i])
    ensures Reliable(e, rank, rows, faulty, t, r, rw) ==> Reliable(e, rank, rows, faulty, t, r, OperandsOf(rw)[i])
  {
    forall c | Reads(e, rank, t, r, OperandsOf(rw)[i], c) ensures Reads(e, rank, t, r, rw, c) {
      OperandReads(e, rank, t, r, rw, i, c);
    }
    LegibleIsSteady(e, rank, rows, faulty, t, r, OperandsOf(rw)[i]);
  }

  // ----- the pipeline

  /** The messages bring, in ascending order, every object as often as the rewrite says; an error may cut
      them short. */
  ghost predicate Lists(msgs: seq<Msg>, e: Env, rank: Rank, rows: Rows, t: TypeName, r: RelationName, rw: Rewrite)
    requires Acyclic(e, rank) && Compilable(e, rank, t, rank(t, r), rw)
  {
    Delivers(msgs, SortedList(BagOf(e, rank, rows, t, r, rw)))
  }

  /** No read that is made can fail: those of the datastore do not, and the merge goes through. */
  ghost predicate Reliable(e: Env, rank: Rank, rows: Rows, faulty: bool, t: TypeName, r: RelationName, rw: Rewrite)
    requires Acyclic(e, rank) && Compilable(e, rank, t, rank(t, r), rw)
  {
    !faulty && forall c :: Reads(e, rank, t, r, rw, c) ==> LeafReads.IsUnbroken(rows(t, c))
  }

  method FastPathRewrite(e: Env, ghost rank: Rank, rows: Rows, faulty: bool, t: TypeName, r: RelationName, rw: Rewrite)
    returns (msgs: seq<Msg>, ok: bool)
    requires Acyclic(e, rank) && Compilable(e, rank, t, rank(t, r), rw) && LeafReads.AllSorted(rows)
    requires Steady(e, rank, rows, faulty, t, r, rw)
    ensures ok ==> Lists(msgs, e, rank, rows, t, r, rw)
    ensures Reliable(e, rank, rows, faulty, t, r, rw) ==> ok && CleanMsgs(msgs)
    ensures Proper(SortedList(BagOf(e, rank, rows, t, r, rw)))
    decreases rank(t, r), rw, 0, 2
  {
    BagIsProper(e, rank, rows, t, r, rw);
    match rw
    case This =>
      msgs, ok := FastPathDirect(rows(t, r), faulty);
      LeafIsSorted(rows, t, r);
    case Computed(c) =>
      msgs, ok := FastPathRewrite(e, rank, rows, faulty, t, c, RewriteOf(e, t, c));
    case TupleToUserset(_, _) =>
      msgs, ok := [], true;
      assert |multiset(SortedList(multiset{}))| == 0;
    case Union(cs) =>
      msgs, ok := CompileUnion(e, rank, rows, faulty, t, r, rw);
    case Intersection(cs) =>
      msgs, ok := CompileIntersection(e, rank, rows, faulty, t, r, rw);
    case Difference(b, s) =>
      msgs, ok := CompileDifference(e, rank, rows, faulty, t, r, rw);
  }

  method CompileUnion(e: Env, ghost rank: Rank, rows: Rows, faulty: bool, t: TypeName, r: RelationName, rw: Rewrite)
    returns (msgs: seq<Msg>, ok: bool)
    requires Acyclic(e, rank) && Compilable(e, rank, t, rank(t, r), rw) && LeafReads.AllSorted(rows) && rw.Union?
    requires Legible(e, rank, rows, t, r, rw)
    ensures ok ==> Lists(msgs, e, rank, rows, t, r, rw)
    ensures Reliable(e, rank, rows, faulty, t, r, rw) ==> ok && CleanMsgs(msgs)
    decreases rank(t, r), rw, 0, 1
  {
    var ss;
    ss, ok := FastPathOperationSetup(e, rank, rows, faulty, t, r, rw);
    if !ok { return [], false; }
    var g := new Group(ss);
    ghost var origin, bags := Rests(g.live), BagsOf(e, rank, rows, t, r, rw.children);
    SetupHolds(ss, g.live, e, rank, rows, t, r, rw.children);
    msgs := FastPathUnion(g);
    UnionDelivers(origin, ss, bags, msgs);
  }

  method CompileIntersection(e: Env, ghost rank: Rank, rows: Rows, faulty: bool, t: TypeName, r: RelationName,
                             rw: Rewrite)
    returns (msgs: seq<Msg>, ok: bool)
    requires Acyclic(e, rank) && Compilable(e, rank, t, rank(t, r), rw) && LeafReads.AllSorted(rows) && rw.Intersection?
    requires Legible(e, rank, rows, t, r, rw)
    ensures ok ==> Lists(msgs, e, rank, rows, t, r, rw)
    ensures Reliable(e, rank, rows, faulty, t, r, rw) ==> ok && CleanMsgs(msgs)
    decreases rank(t, r), rw, 0, 1
  {
    var ss;
    ss, ok := FastPathOperationSetup(e, rank, rows, faulty, t, r, rw);
    if !ok { return [], false; }
    var g := new Group(ss);
    ghost var origin, bags := Rests(g.live), BagsOf(e, rank, rows, t, r, rw.children);
    SetupHolds(ss, g.live, e, rank, rows, t, r, rw.children);
    msgs := FastPathIntersection(g);
    InterDelivers(origin, ss, bags, msgs);
  }

  method CompileDifference(e: Env, ghost rank: Rank, rows: Rows, faulty: bool, t: TypeName, r: RelationName,
                           rw: Rewrite)
    returns (msgs: seq<Msg>, ok: bool)
    requires Acyclic(e, rank) && Compilable(e, rank, t, rank(t, r), rw) && LeafReads.AllSorted(rows) && rw.Difference?
    requires Legible(e, rank, rows, t, r, rw)
    ensures ok ==> Lists(msgs, e, rank, rows, t, r, rw)
    ensures Reliable(e, rank, rows, faulty, t, r, rw) ==> ok && CleanMsgs(msgs)
    decreases rank(t, r), rw, 0, 1
  {
    var ss;
    ss, ok := FastPathOperationSetup(e, rank, rows, faulty, t, r, rw);
    if !ok { return [], false; }
    var g := new Group(ss);
    ghost var base, sub := ss[0].view.rest, ss[1].view.rest;
    msgs := FastPathDifference(g);
    DiffDelivers(base, sub, msgs);
  }

  /** One message with an iterator over the objects directly related to the user.  It reads the merged
      rows and drops some of them; a read of the datastore may fail at the start or on the way. */
  method FastPathDirect(read: LeafReads.Read, faulty: bool) returns (msgs: seq<Msg>, ok: bool)
    ensures ok ==> |msgs| == 1 && Delivers(msgs, LeafReads.LeafList(read))
    ensures !faulty && LeafReads.IsUnbroken(read) ==> ok && CleanMsgs(msgs)
  {
    var fails := *;
    if fails && faulty {
      return [], false;
    }
    var it := new Iterators.OrderedCombinedIterator(read.rows);
    assert it.slots == LeafReads.AsInputs(read.rows);
    var items, end := Iterators.ReadToEnd(it, faulty);
    LeafReads.KeptPart(LeafReads.FilterOf(read.dropped), items, LeafReads.LeafRun(read).items);
    msgs, ok := [Batch(LeafReads.KeysKept(read.dropped, items), !end.Done?)], true;
    assert msgs[..0] == [] && Flatten(msgs) == LeafReads.KeysKept(read.dropped, items);
  }

  /** Starts the pipeline of every child and wraps its output in a stream. */
  method FastPathOperationSetup(e: Env, ghost rank: Rank, rows: Rows, faulty: bool, t: TypeName, r: RelationName,
                                rw: Rewrite)
    returns (ss: seq<Stream>, ok: bool)
    requires Acyclic(e, rank) && Compilable(e, rank, t, rank(t, r), rw) && LeafReads.AllSorted(rows)
    requires (rw.Union? || rw.Intersection? || rw.Difference?) && Legible(e, rank, rows, t, r, rw)
    ensures Distinct(ss) && fresh(set s | s in ss)
    ensures |ss| <= |OperandsOf(rw)| && (ok ==> |ss| == |OperandsOf(rw)|)
    ensures forall i :: 0 <= i < |ss| ==> FeedsOperand(ss[i], i, e, rank, rows, t, r, rw)
    ensures Reliable(e, rank, rows, faulty, t, r, rw) ==> ok && forall i :: 0 <= i < |ss| ==> ss[i].Clean()
    decreases rank(t, r), rw, 0, 0
  {
    ss := [];
    var children := OperandsOf(rw);
    for idx := 0 to |children|
      invariant |ss| == idx && Distinct(ss) && fresh(set s | s in ss)
      invariant forall i :: 0 <= i < idx ==> FeedsOperand(ss[i], i, e, rank, rows, t, r, rw)
      invariant Reliable(e, rank, rows, faulty, t, r, rw) ==> forall i :: 0 <= i < idx ==> ss[i].Clean()
    {
      var s;
      s, ok := StartOperand(e, rank, rows, faulty, t, r, rw, idx);
      if !ok { return; }
      ss := ss + [s];
    }
    ok := true;
  }

  method StartOperand(e: Env, ghost rank: Rank, rows: Rows, faulty: bool, t: TypeName, r: RelationName, rw: Rewrite,
                      idx: nat)
    returns (s: Stream?, ok: bool)
    requires Acyclic(e, rank) && Compilable(e, rank, t, rank(t, r), rw) && LeafReads.AllSorted(rows)
    requires (rw.Union? || rw.Intersection? || rw.Difference?) && Legible(e, rank, rows, t, r, rw)
    requires idx < |OperandsOf(rw)|
    ensures ok ==> s != null && fresh(s) && FeedsOperand(s, idx, e, rank, rows, t, r, rw)
    ensures Reliable(e, rank, rows, faulty, t, r, rw) ==> ok && s.Clean()
    decreases rank(t, r), rw, 0, -1
  {
    OperandIsSteady(e, rank, rows, faulty, t, r, rw, idx);
    var producer;
    producer, ok := FastPathRewrite(e, rank, rows, faulty, t, r, OperandsOf(rw)[idx]);
    if !ok { return null, false; }
    s := new Stream(idx, producer, SortedList(BagOf(e, rank, rows, t, r, OperandsOf(rw)[idx])));
  }

  /** The stream will deliver what the child denotes, as far as no read fails. */
  ghost predicate Feeds(s: Stream, e: Env, rank: Rank, rows: Rows, t: TypeName, r: RelationName, child: Rewrite)
    requires Acyclic(e, rank) && Compilable(e, rank, t, rank(t, r), child)
    reads s
  {
    s.view.rest == SortedList(BagOf(e, rank, rows, t, r, child)) && Listing(s.view.rest)
  }

  /** The stream is that of the operand with the same index. */
  ghost predicate FeedsOperand(s: Stream, i: nat, e: Env, rank: Rank, rows: Rows, t: TypeName, r: RelationName,
                               rw: Rewrite)
    requires Acyclic(e, rank) && (rw.Union? || rw.Intersection? || rw.Difference?)
    reads s
  {
    && i < |OperandsOf(rw)| && Compilable(e, rank, t, rank(t, r), OperandsOf(rw)[i])
    && s.Valid() && s.idx == i && Feeds(s, e, rank, rows, t, r, OperandsOf(rw)[i])
  }

  /** The inputs of an operation are the sorted lists of the bags. */
  ghost predicate AreLists<K>(origin: map<K, seq<Id>>, keys: seq<K>, bags: seq<Bag>) {
    && |keys| == |bags| && origin.Keys == (set k | k in keys)
    && forall i :: 0 <= i < |keys| ==> multiset(origin[keys[i]]) == bags[i]
  }

  lemma SetupHolds(ss: seq<Stream>, live: set<Stream>, e: Env, rank: Rank, rows: Rows, t: TypeName, r: RelationName,
                   children: seq<Rewrite>)
    requires Acyclic(e, rank) && live == SetOf(ss) && |ss| == |children|
    requires forall i :: 0 <= i < |ss| ==> Compilable(e, rank, t, rank(t, r), children[i])
    requires forall i :: 0 <= i < |ss| ==> Feeds(ss[i], e, rank, rows, t, r, children[i])
    ensures Sorted(Rests(live)) && AreLists(Rests(live), ss, BagsOf(e, rank, rows, t, r, children))
  {}

  // ----- what the operations deliver

  lemma LeafIsSorted(rows: Rows, t: TypeName, r: RelationName)
    requires LeafReads.AllSorted(rows)
    ensures SortedList(multiset(LeafReads.LeafList(rows(t, r)))) == LeafReads.LeafList(rows(t, r))
  {
    var list := LeafReads.LeafList(rows(t, r));
    LeafReads.LeafIsStrict(rows(t, r));
    PartIsPrefix(list, multiset(list));
  }

  /** No bag holds the empty string. */
  lemma {:induction false} BagIsProper(e: Env, rank: Rank, rows: Rows, t: TypeName, r: RelationName, rw: Rewrite)
    requires Acyclic(e, rank) && Compilable(e, rank, t, rank(t, r), rw) && LeafReads.AllSorted(rows)
    ensures BagOf(e, rank, rows, t, r, rw)[0] == 0 && Proper(SortedList(BagOf(e, rank, rows, t, r, rw)))
    decreases rank(t, r), rw
  {
    match rw {
      case This =>
        LeafReads.LeafIsStrict(rows(t, r));
        assert 0 !in LeafReads.LeafList(rows(t, r));
      case Computed(c) => BagIsProper(e, rank, rows, t, c, RewriteOf(e, t, c));
      case TupleToUserset(_, _) =>
      case Union(cs) =>
        forall i | 0 <= i < |cs| { BagIsProper(e, rank, rows, t, r, cs[i]); }
        JoinIsLargest(BagsOf(e, rank, rows, t, r, cs), 0);
      case Intersection(cs) =>
        BagIsProper(e, rank, rows, t, r, cs[0]);
        MeetIsSmallest(BagsOf(e, rank, rows, t, r, cs), 0);
      case Difference(b, s) => BagIsProper(e, rank, rows, t, r, b);
    }
    ProperList(BagOf(e, rank, rows, t, r, rw));
  }

  lemma ProperList(m: Bag)
    requires m[0] == 0
    ensures Proper(SortedList(m))
  {
    var list := SortedList(m);
    forall i | 0 <= i < |list| ensures list[i] > 0 {
      CountPresent(list, 0);
    }
  }

  lemma UnionDelivers<K>(origin: map<K, seq<Id>>, keys: seq<K>, bags: seq<Bag>, msgs: seq<Msg>)
    requires AreLists(origin, keys, bags) && UnionPart(origin, Flatten(msgs))
    requires CleanMsgs(msgs) ==> UnionSpec(origin, Flatten(msgs))
    ensures Delivers(msgs, SortedList(Join(bags)))
  {
    var out, m := Flatten(msgs), Join(bags);
    forall x ensures Count(out, x) <= m[x] && (IsLargest(origin, out, x) ==> Count(out, x) == m[x]) {
      UnionIsLargest(origin, keys, bags, out, x);
    }
    PartIsPrefix(out, m);
    if CleanMsgs(msgs) {
      assert multiset(out) == m by {
        forall x ensures multiset(out)[x] == m[x] {
          assert IsLargest(origin, out, x);
        }
      }
    }
  }

  lemma UnionIsLargest<K>(origin: map<K, seq<Id>>, keys: seq<K>, bags: seq<Bag>, out: seq<Id>, x: Id)
    requires AreLists(origin, keys, bags) && UnionPart(origin, out)
    ensures Count(out, x) <= Join(bags)[x] && (IsLargest(origin, out, x) ==> Count(out, x) == Join(bags)[x])
  {
    JoinIsLargest(bags, x);
    var m := Join(bags)[x];
    if m > 0 {
      var i :| 0 <= i < |bags| && bags[i][x] == m;
      assert Count(origin[keys[i]], x) == m;
    }
    if Count(out, x) > 0 {
      var k :| k in origin && Count(out, x) <= Count(origin[k], x);
      var i :| 0 <= i < |keys| && keys[i] == k;
      assert Count(origin[keys[i]], x) == bags[i][x];
    }
  }

  lemma InterDelivers<K>(origin: map<K, seq<Id>>, keys: seq<K>, bags: seq<Bag>, msgs: seq<Msg>)
    requires AreLists(origin, keys, bags) && bags != [] && InterPart(origin, Flatten(msgs))
    requires CleanMsgs(msgs) ==> InterSpec(origin, Flatten(msgs))
    ensures Delivers(msgs, SortedList(Meet(bags)))
  {
    var out, m := Flatten(msgs), Meet(bags);
    forall x ensures Count(out, x) <= m[x] && (UsedUp(origin, out, x) ==> Count(out, x) == m[x]) {
      InterIsSmallest(origin, keys, bags, out, x);
    }
    PartIsPrefix(out, m);
    if CleanMsgs(msgs) {
      assert multiset(out) == m by {
        forall x ensures multiset(out)[x] == m[x] {
          assert IsSmallest(origin, out, x);
        }
      }
    }
  }

  lemma InterIsSmallest<K>(origin: map<K, seq<Id>>, keys: seq<K>, bags: seq<Bag>, out: seq<Id>, x: Id)
    requires AreLists(origin, keys, bags) && bags != [] && InterPart(origin, out)
    ensures Count(out, x) <= Meet(bags)[x] && (UsedUp(origin, out, x) ==> Count(out, x) == Meet(bags)[x])
  {
    MeetIsSmallest(bags, x);
    var i :| 0 <= i < |bags| && bags[i][x] == Meet(bags)[x];
    assert Count(origin[keys[i]], x) == bags[i][x];
    if UsedUp(origin, out, x) {
      var k :| k in origin && Count(origin[k], x) == Count(out, x);
      var j :| 0 <= j < |keys| && keys[j] == k;
      assert Count(origin[keys[j]], x) == bags[j][x];
    }
  }

  lemma DiffDelivers(base: seq<Id>, sub: seq<Id>, msgs: seq<Msg>)
    requires DiffPart(base, sub, Flatten(msgs))
    requires CleanMsgs(msgs) ==> DiffSpec(base, sub, Flatten(msgs))
    ensures Delivers(msgs, SortedList(multiset(base) - multiset(sub)))
  {
    var out, m := Flatten(msgs), multiset(base) - multiset(sub);
    forall x ensures Count(out, x) <= m[x] && (Passed(out, x) || CleanMsgs(msgs) ==> Count(out, x) == m[x]) {
      MinusCounts(base, sub, x);
    }
    PartIsPrefix(out, m);
    if CleanMsgs(msgs) {
      SameBags(multiset(out), m);
    }
  }

  lemma MinusCounts(base: seq<Id>, sub: seq<Id>, x: Id)
    ensures (multiset(base) - multiset(sub))[x] == Monus(Count(base, x), Count(sub, x))
  {}

  lemma SameBags(a: Bag, b: Bag)
    requires forall x :: a[x] == b[x]
    ensures a == b
  {}
}
