/** The strategy that intersects two asynchronous producers (weight_two_resolver.go): on the left
    the objects the user reaches, on the right the objects the checked object points to. */
module Weight2 {
  import opened Options
  import opened Model
  import opened Semantics
  import opened Reducers
  import opened FastPath
  import opened FastPathMeaning
  import opened Merge
  import opened Claims
  import opened Bags
  import opened LeafReads
  import TupleMerge
  import S = Streams

  /** A message of the left producer: an error, or an iterator with what it answers until it is done, an
      object or an error (`None`) each time. */
  datatype LeftMsg =
    | Objects(answers: seq<Option<Object>>)
    | LeftError

  /** A message of the right producer. */
  datatype RightMsg =
    | Found(obj: Object)
    | RightError

  ghost predicate OnLeft(left: seq<LeftMsg>, o: Object) {
    exists i :: 0 <= i < |left| && left[i].Objects? && Some(o) in left[i].answers
  }

  ghost predicate OnRight(right: seq<RightMsg>, o: Object) {
    Found(o) in right
  }

  ghost predicate Common(left: seq<LeftMsg>, right: seq<RightMsg>) {
    exists o :: OnLeft(left, o) && OnRight(right, o)
  }

  ghost predicate LeftClean(left: seq<LeftMsg>) {
    forall i :: 0 <= i < |left| ==> left[i].Objects? && None !in left[i].answers
  }

  ghost predicate RightClean(right: seq<RightMsg>) {
    forall i :: 0 <= i < |right| ==> right[i].Found?
  }

  /** `left` and `right` are what the two channels deliver until they are closed; which of them is
      read next is up to the scheduler. */
  method Intersect(left: seq<LeftMsg>, right: seq<RightMsg>) returns (r: Outcome)
    ensures r.Answer? ==> !r.cycle && (r.allowed <==> Common(left, right))
    ensures LeftClean(left) && RightClean(right) ==> r.Answer?
    ensures r.Answer? && !r.allowed ==> RightClean(right) || forall o :: !OnLeft(left, o)
    ensures r.Answer? && !r.allowed ==> LeftClean(left) || right == []
    ensures right != [] && right[0].Found? && LeftError !in left && Common(left, right) ==> r == Answer(true, false)
  {
    if right == [] {
      return DENIED;
    }
    if right[0].RightError? {
      return Error;
    }
    var rightSet, leftSet := {right[0].obj}, {};
    var nl, nr := 0, 1;
    var leftOpen, rightOpen, lastErr := true, true, false;
    while leftOpen || rightOpen
      invariant 0 <= nl <= |left| && 1 <= nr <= |right|
      invariant forall o :: o in leftSet ==> OnLeft(left, o)
      invariant forall o :: o in rightSet ==> OnRight(right, o)
      invariant forall o :: OnLeft(left[..nl], o) ==> o in leftSet
      invariant forall o :: OnRight(right[..nr], o) ==> o in rightSet
      invariant !lastErr ==> RightClean(right[..nr]) && LeftClean(left[..nl])
      invariant leftSet !! rightSet
      invariant LeftClean(left) && RightClean(right) ==> !lastErr
      invariant !leftOpen ==> nl == |left| && leftSet != {}
      invariant !rightOpen ==> nr == |right|
      decreases |left| - nl + |right| - nr, leftOpen, rightOpen
    {
      var chooseLeft := *;
      if leftOpen && (chooseLeft || !rightOpen) {
        if nl == |left| {
          leftOpen := false;
          if leftSet == {} {
            assert left[..nl] == left;
            return if lastErr then Error else DENIED;
          }
        } else {
          var msg := left[nl];
          if msg.LeftError? {
            return Error;
          }
          var hit, failed;
          leftSet, hit, failed := ReadBatch(msg.answers, leftSet, rightSet);
          if hit {
            ghost var o :| Some(o) in msg.answers && o in rightSet;
            assert OnLeft(left, o);
            return Answer(true, false);
          }
          lastErr := lastErr || failed;
          OnLeftNext(left, nl);
          nl := nl + 1;
        }
      } else {
        if nr == |right| {
          rightOpen := false;
        } else {
          var msg := right[nr];
          if msg.RightError? {
            lastErr := true;
          } else {
            rightSet := rightSet + {msg.obj};
            assert OnRight(right, msg.obj);
            if msg.obj in leftSet {
              return Answer(true, false);
            }
          }
          assert right[..nr + 1] == right[..nr] + [msg];
          nr := nr + 1;
        }
      }
    }
    assert left[..nl] == left && right[..nr] == right;
    r := if lastErr then Error else DENIED;
  }

  lemma OnLeftNext(left: seq<LeftMsg>, n: nat)
    requires n < |left| && left[n].Objects?
    ensures forall o :: OnLeft(left[..n + 1], o) <==> OnLeft(left[..n], o) || Some(o) in left[n].answers
  {
    forall o ensures OnLeft(left[..n + 1], o) <==> OnLeft(left[..n], o) || Some(o) in left[n].answers {
      if OnLeft(left[..n], o) {
        var i :| 0 <= i < n && left[..n][i].Objects? && Some(o) in left[..n][i].answers;
        assert left[..n + 1][i] == left[i];
      }
      if Some(o) in left[n].answers {
        assert left[..n + 1][n] == left[n];
      }
    }
  }

  function ObjectsIn(answers: seq<Option<Object>>): (objs: set<Object>)
    ensures forall o :: o in objs <==> Some(o) in answers
  {
    set a | a in answers && a.Some? :: a.value
  }

  /** Asks one iterator until it is done or has shown an object of the right side; after an error it asks
      again. */
  method ReadBatch(answers: seq<Option<Object>>, leftSet: set<Object>, rightSet: set<Object>)
    returns (leftSet': set<Object>, hit: bool, failed: bool)
    requires leftSet !! rightSet
    ensures hit <==> exists o :: Some(o) in answers && o in rightSet
    ensures !hit ==> leftSet' == leftSet + ObjectsIn(answers) && leftSet' !! rightSet
    ensures !hit ==> (failed <==> None in answers)
  {
    leftSet', failed := leftSet, false;
    for i := 0 to |answers|
      invariant leftSet' == leftSet + ObjectsIn(answers[..i]) && leftSet' !! rightSet
      invariant failed <==> None in answers[..i]
    {
      assert answers[..i + 1] == answers[..i] + [answers[i]];
      if answers[i].None? {
        failed := true;
      } else {
        var t := answers[i].value;
        leftSet' := leftSet' + {t};
        if t in rightSet {
          assert answers[i] == Some(t);
          return leftSet', true, failed;
        }
      }
    }
    assert answers[..|answers|] == answers;
    hit := false;
  }

  /** Several left channels are merged into one, in any order of arrival. */
  method FanIn(chans: seq<seq<LeftMsg>>) returns (out: seq<LeftMsg>)
    ensures forall m :: m in out <==> exists i :: 0 <= i < |chans| && m in chans[i]
  {
    var pos := seq(|chans|, i => 0);
    out := [];
    ghost var left := Pending(chans, pos);
    while exists i :: 0 <= i < |chans| && pos[i] < |chans[i]|
      invariant |pos| == |chans| && forall i :: 0 <= i < |chans| ==> 0 <= pos[i] <= |chans[i]|
      invariant forall m :: m in out <==> exists i :: 0 <= i < |chans| && m in chans[i][..pos[i]]
      decreases Pending(chans, pos)
    {
      var i :| 0 <= i < |chans| && pos[i] < |chans[i]|;
      ghost var before, was := pos, out;
      out := out + [chans[i][pos[i]]];
      pos := pos[i := pos[i] + 1];
      assert chans[i][..pos[i]] == chans[i][..before[i]] + [chans[i][before[i]]];
      forall m ensures m in out <==> exists j :: 0 <= j < |chans| && m in chans[j][..pos[j]] {
        if m in was {
          var j :| 0 <= j < |chans| && m in chans[j][..before[j]];
          assert m in chans[j][..pos[j]];
        }
        if m == chans[i][before[i]] {
          assert m in chans[i][..pos[i]];
        }
      }
      PendingDecreases(chans, before, pos, i);
    }
    forall m ensures m in out <==> exists i :: 0 <= i < |chans| && m in chans[i] {
      if i :| 0 <= i < |chans| && m in chans[i] {
        assert chans[i][..pos[i]] == chans[i];
      }
    }
  }

  ghost function Pending(chans: seq<seq<LeftMsg>>, pos: seq<nat>): nat
    requires |pos| == |chans| && forall i :: 0 <= i < |chans| ==> pos[i] <= |chans[i]|
  {
    if chans == [] then 0 else |chans[0]| - pos[0] + Pending(chans[1..], pos[1..])
  }

  lemma {:induction false} PendingDecreases(chans: seq<seq<LeftMsg>>, was: seq<nat>, now: seq<nat>, i: nat)
    requires |was| == |chans| && forall j :: 0 <= j < |chans| ==> was[j] <= |chans[j]|
    requires i < |chans| && was[i] < |chans[i]| && now == was[i := was[i] + 1]
    ensures Pending(chans, now) < Pending(chans, was)
  {
    if i > 0 {
      PendingDecreases(chans[1..], was[1..], now[1..], i - 1);
    } else {
      assert now[1..] == was[1..];
    }
  }

  // ----- the strategy for usersets and for parents

  /** The relation can be decided by listing: all that matters to the user has weight one. */
  ghost predicate Listable(e: Env, rank: Rank, user: Subject, t: TypeName, r: RelationName)
    requires Acyclic(e, rank)
  {
    !user.Userset? && Defined(e, t, r) && WeightOne(e, rank, RefOf(user), t, r, RewriteOf(e, t, r))
  }

  /** What the fast paths rely on in a model and a store: valid tuples and a sound path relation. */
  ghost predicate Grounded(e: Env, rank: Rank, store: Store) {
    Acyclic(e, rank) && ValidTuples(e) && PathClosed(e) && HoldsTuplesOf(store, e)
  }

  /** All that listing the relation reads for the user is merged without loss. */
  ghost predicate Readable(e: Env, rank: Rank, store: Store, user: Subject, t: TypeName, r: RelationName)
    requires Acyclic(e, rank) && Defined(e, t, r)
  {
    Legible(e, rank, LeafRows(e, store, user), t, r, RewriteOf(e, t, r))
  }

  lemma ReadableReads(e: Env, rank: Rank, store: Store, user: Subject, faulty: bool, t: TypeName, r: RelationName)
    requires Grounded(e, rank, store) && Defined(e, t, r) && Readable(e, rank, store, user, t, r)
    ensures var rows, rw := LeafRows(e, store, user), RewriteOf(e, t, r);
            && AllSorted(rows) && Faithful(e, rank, user, rows, t, r, rw)
            && Steady(e, rank, rows, faulty, t, r, rw) && (!faulty ==> Reliable(e, rank, rows, faulty, t, r, rw))
  {
    var rows, rw := LeafRows(e, store, user), RewriteOf(e, t, r);
    LeafRowsAreSorted(e, store, user);
    LegibleIsSteady(e, rank, rows, faulty, t, r, rw);
    forall c | Reads(e, rank, t, r, rw, c) ensures ReadsAll(e, store, user, t, c) {
      ReadsAllIff(e, store, user, t, c);
    }
    forall c | Reads(e, rank, t, r, rw, c) ensures ListsDirect(e, user, rows, t, c) && IsUnbroken(rows(t, c)) {
      assert ReadsAll(e, store, user, t, c);
    }
  }

  /** The messages bring objects of type `t` whose goal is true, and all of those unless an error is
      among them. */
  ghost predicate Decides(e: Env, left: seq<LeftMsg>, t: TypeName, r: RelationName, user: Subject) {
    && (forall o :: OnLeft(left, o) ==> o.typ == t && IsTrue(e, Goal(o, r, user)))
    && (LeftClean(left) ==> forall x: S.Id :: !OnLeft(left, Object(t, x)) ==> IsFalse(e, Goal(Object(t, x), r, user)))
  }

  /** What the fast path lists for a relation, if no read fails. */
  ghost function ListedFor(e: Env, rank: Rank, rows: Rows, t: TypeName, r: RelationName): Bag
    requires Acyclic(e, rank) && Defined(e, t, r)
  {
    BagOf(e, rank, rows, t, r, RewriteOf(e, t, r))
  }

  /** The left producer of one relation. */
  method ListLeft(e: Env, ghost rank: Rank, rows: Rows, faulty: bool, t: TypeName, r: RelationName)
    returns (left: seq<LeftMsg>, ok: bool)
    requires Acyclic(e, rank) && AllSorted(rows) && Defined(e, t, r)
    requires Steady(e, rank, rows, faulty, t, r, RewriteOf(e, t, r))
    ensures Reliable(e, rank, rows, faulty, t, r, RewriteOf(e, t, r)) ==> ok && LeftClean(left)
    ensures forall o :: OnLeft(left, o) ==> o.typ == t && ListedFor(e, rank, rows, t, r)[o.id] > 0
    ensures ok && LeftClean(left) ==>
              forall x: S.Id :: ListedFor(e, rank, rows, t, r)[x] > 0 ==> OnLeft(left, Object(t, x))
  {
    var msgs;
    msgs, ok := FastPathRewrite(e, rank, rows, faulty, t, r, RewriteOf(e, t, r));
    if !ok { return [], false; }
    left := ToObjects(t, msgs);
    forall x: S.Id
      ensures OnLeft(left, Object(t, x)) ==> ListedFor(e, rank, rows, t, r)[x] > 0
      ensures LeftClean(left) && ListedFor(e, rank, rows, t, r)[x] > 0 ==> OnLeft(left, Object(t, x))
    {
      ListedIsInBag(t, msgs, left, ListedFor(e, rank, rows, t, r), x);
    }
    ListedIsInBag(t, msgs, left, ListedFor(e, rank, rows, t, r), 0);
    OnLeftIsOfType(t, msgs, left);
  }

  /** What is listed for a listable relation decides its goals. */
  lemma ListedIsTrue(e: Env, rank: Rank, store: Store, user: Subject, t: TypeName, r: RelationName, x: S.Id)
    requires Grounded(e, rank, store) && Listable(e, rank, user, t, r) && Readable(e, rank, store, user, t, r)
    ensures var g := Goal(Object(t, x), r, user);
            if ListedFor(e, rank, LeafRows(e, store, user), t, r)[x] > 0 then IsTrue(e, g) else IsFalse(e, g)
  {
    ReadableReads(e, rank, store, user, false, t, r);
    ListsTheSet(e, rank, user, LeafRows(e, store, user), t, r, RewriteOf(e, t, r), x);
    ListableMeaning(e, rank, user, t, r, x);
  }

  /** What is listed is in the bag, and all of that is listed if no error is among the messages. */
  lemma ListedIsInBag(t: TypeName, msgs: seq<S.Msg>, left: seq<LeftMsg>, bag: Bag, x: S.Id)
    requires AllConvey(t, msgs, left)
    requires S.Delivers(msgs, SortedList(bag))
    ensures OnLeft(left, Object(t, x)) ==> bag[x] > 0
    ensures LeftClean(left) && bag[x] > 0 ==> OnLeft(left, Object(t, x))
    ensures S.CleanMsgs(msgs) <==> LeftClean(left)
  {
    var list := SortedList(bag);
    OnLeftCounts(t, msgs, left, x);
    CountPresent(S.Flatten(msgs), x);
    CountPresent(list, x);
    assert x in S.Flatten(msgs) ==> x in list;
    if LeftClean(left) {
      forall i | 0 <= i < |msgs| ensures msgs[i].Batch? && !msgs[i].broken {
        assert Conveys(t, msgs[i], left[i]);
      }
    }
  }

  lemma OnLeftIsOfType(t: TypeName, msgs: seq<S.Msg>, left: seq<LeftMsg>)
    requires AllConvey(t, msgs, left)
    ensures forall o :: OnLeft(left, o) ==> o == Object(t, o.id)
  {
    forall o | OnLeft(left, o) ensures o.typ == t {
      var i :| 0 <= i < |left| && left[i].Objects? && Some(o) in left[i].answers;
      assert Conveys(t, msgs[i], left[i]);
    }
  }

  /** The objects it sends are those for which the relation holds, up to a failed read. */
  method ProduceLeft(e: Env, ghost rank: Rank, store: Store, user: Subject, faulty: bool, t: TypeName, r: RelationName)
    returns (left: seq<LeftMsg>, ok: bool)
    requires Grounded(e, rank, store) && Listable(e, rank, user, t, r) && Readable(e, rank, store, user, t, r)
    ensures !faulty ==> ok && LeftClean(left)
    ensures ok ==> Decides(e, left, t, r, user)
  {
    ReadableReads(e, rank, store, user, faulty, t, r);
    left, ok := ListLeft(e, rank, LeafRows(e, store, user), faulty, t, r);
    forall x: S.Id
      ensures var g := Goal(Object(t, x), r, user);
              if ListedFor(e, rank, LeafRows(e, store, user), t, r)[x] > 0 then IsTrue(e, g) else IsFalse(e, g)
    {
      ListedIsTrue(e, rank, store, user, t, r, x);
    }
    forall o | OnLeft(left, o) ensures IsTrue(e, Goal(o, r, user)) {
      assert o == Object(t, o.id);
    }
  }

  /** The left message has the objects of a message of the pipeline, and an error if that breaks off. */
  ghost predicate Conveys(t: TypeName, m: S.Msg, l: LeftMsg) {
    match m
    case Failed => l.LeftError?
    case Batch(items, broken) =>
      && l.Objects? && (broken <==> None in l.answers)
      && (forall x: S.Id :: Some(Object(t, x)) in l.answers <==> x in items)
      && forall o :: Some(o) in l.answers ==> o.typ == t
  }

  ghost predicate AllConvey(t: TypeName, msgs: seq<S.Msg>, left: seq<LeftMsg>) {
    |left| == |msgs| && forall i :: 0 <= i < |msgs| ==> Conveys(t, msgs[i], left[i])
  }

  /** An iterator that fails may do so anywhere, and go on if it is asked again. */
  method ToObjects(t: TypeName, msgs: seq<S.Msg>) returns (left: seq<LeftMsg>)
    ensures AllConvey(t, msgs, left)
  {
    left := [];
    for i := 0 to |msgs|
      invariant |left| == i && forall j :: 0 <= j < i ==> Conveys(t, msgs[j], left[j])
    {
      var m := LeftError;
      if msgs[i].Batch? {
        var k: nat :| k <= |msgs[i].items|;
        m := Objects(AnswersOf(t, msgs[i].items, msgs[i].broken, k));
      }
      left := left + [m];
    }
  }

  function AnswersOf(t: TypeName, items: seq<S.Id>, broken: bool, k: nat): (answers: seq<Option<Object>>)
    requires k <= |items|
    ensures forall x: S.Id :: Some(Object(t, x)) in answers <==> x in items
    ensures forall o :: Some(o) in answers ==> o.typ == t
    ensures broken <==> None in answers
  {
    assert items == items[..k] + items[k..];
    Shown(t, items[..k]) + (if broken then [None] else []) + Shown(t, items[k..])
  }

  function Shown(t: TypeName, items: seq<S.Id>): (answers: seq<Option<Object>>)
    ensures None !in answers && forall o :: Some(o) in answers ==> o.typ == t
    ensures forall x: S.Id :: Some(Object(t, x)) in answers <==> x in items
  {
    var answers := seq(|items|, i requires 0 <= i < |items| => Some(Object(t, items[i])));
    assert forall x: S.Id :: x in items ==> Some(Object(t, x)) in answers by {
      forall x: S.Id | x in items ensures Some(Object(t, x)) in answers {
        var i :| 0 <= i < |items| && items[i] == x;
        assert answers[i] == Some(Object(t, x));
      }
    }
    answers
  }

  lemma OnLeftCounts(t: TypeName, msgs: seq<S.Msg>, left: seq<LeftMsg>, x: S.Id)
    requires AllConvey(t, msgs, left)
    ensures OnLeft(left, Object(t, x)) <==> Count(S.Flatten(msgs), x) > 0
  {
    CountPresent(S.Flatten(msgs), x);
    InFlatten(msgs, x);
    if InSome(msgs, x) {
      var i :| 0 <= i < |msgs| && x in S.ItemsOf(msgs[i]);
      assert Conveys(t, msgs[i], left[i]);
    }
    if i :| 0 <= i < |left| && left[i].Objects? && Some(Object(t, x)) in left[i].answers {
      assert Conveys(t, msgs[i], left[i]);
    }
  }

  ghost predicate InSome(msgs: seq<S.Msg>, x: S.Id) {
    exists i :: 0 <= i < |msgs| && x in S.ItemsOf(msgs[i])
  }

  lemma {:induction false} InFlatten(msgs: seq<S.Msg>, x: S.Id)
    ensures x in S.Flatten(msgs) <==> InSome(msgs, x)
  {
    if msgs != [] {
      var k := |msgs| - 1;
      InFlatten(msgs[..k], x);
      InLonger(msgs, k, x);
    }
  }

  lemma InLonger(msgs: seq<S.Msg>, k: nat, x: S.Id)
    requires k == |msgs| - 1
    ensures InSome(msgs, x) <==> InSome(msgs[..k], x) || x in S.ItemsOf(msgs[k])
  {
    if i :| 0 <= i < k && x in S.ItemsOf(msgs[..k][i]) {
      assert x in S.ItemsOf(msgs[i]);
    }
    if i :| 0 <= i < |msgs| && x in S.ItemsOf(msgs[i]) && i < k {
      assert x in S.ItemsOf(msgs[..k][i]);
    }
  }

  lemma ListableMeaning(e: Env, rank: Rank, user: Subject, t: TypeName, r: RelationName, x: S.Id)
    requires Acyclic(e, rank) && ValidTuples(e) && PathClosed(e) && Listable(e, rank, user, t, r)
    ensures var g := Goal(Object(t, x), r, user);
            if Denotes(e, rank, user, t, r, RewriteOf(e, t, r), x) then IsTrue(e, g) else IsFalse(e, g)
  {
    var g := Goal(Object(t, x), r, user);
    WeightOneMeaning(e, rank, user, t, r, RewriteOf(e, t, r), x);
    if Denotes(e, rank, user, t, r, RewriteOf(e, t, r), x) {
      DenotesReaches(e, rank, user, t, r, RewriteOf(e, t, r), x);
      GoalTrue(e, g);
    } else {
      GoalFalse(e, g);
    }
  }

  /** The right producer: the objects of a set, in any order, cut short by an error if the read is
      faulty and fails. */
  method ProduceRight(objs: set<Object>, faulty: bool) returns (right: seq<RightMsg>)
    ensures forall o :: OnRight(right, o) ==> o in objs
    ensures !faulty ==> RightClean(right)
    ensures RightClean(right) ==> forall o :: o in objs ==> OnRight(right, o)
  {
    right := [];
    var remaining := objs;
    while remaining != {}
      invariant remaining <= objs && RightClean(right)
      invariant forall o :: OnRight(right, o) ==> o in objs
      invariant forall o :: o in objs - remaining ==> OnRight(right, o)
      decreases remaining
    {
      var fails := *;
      if fails && faulty {
        right := right + [RightError];
        assert right[|right| - 1] == RightError;
        return;
      }
      var o :| o in remaining;
      assert forall p :: OnRight(right, p) ==> OnRight(right + [Found(o)], p);
      assert (right + [Found(o)])[|right|] == Found(o);
      right := right + [Found(o)];
      remaining := remaining - {o};
    }
  }

  /** On any store, the answer tells whether one of the usersets is listed. */
  method IntersectUsersets(e: Env, ghost rank: Rank, rows: Rows, g: Goal, ref: Ref, faulty: bool) returns (r: Outcome)
    requires Acyclic(e, rank) && AllSorted(rows) && ref.UsersetRef? && Defined(e, ref.typ, ref.relation)
    requires Steady(e, rank, rows, faulty, ref.typ, ref.relation, RewriteOf(e, ref.typ, ref.relation))
    ensures var bag := ListedFor(e, rank, rows, ref.typ, ref.relation);
            r.Answer? ==> !r.cycle && (r.allowed <==> exists k :: k in UsersetGoals(e, g, [ref]) && bag[k.obj.id] > 0)
    ensures Reliable(e, rank, rows, faulty, ref.typ, ref.relation, RewriteOf(e, ref.typ, ref.relation)) ==> r.Answer?
  {
    var goals := UsersetGoals(e, g, [ref]);
    var left, ok := ListLeft(e, rank, rows, faulty, ref.typ, ref.relation);
    if !ok { return Error; }
    var right := ProduceRight(set k | k in goals :: k.obj, faulty);
    r := Intersect(left, right);
    if r.Allowed() {
      ghost var o :| OnLeft(left, o) && OnRight(right, o);
      ghost var k :| k in goals && k.obj == o;
      assert ListedFor(e, rank, rows, ref.typ, ref.relation)[k.obj.id] > 0;
    }
    if r.Answer? && !r.allowed {
      forall k | k in goals ensures ListedFor(e, rank, rows, ref.typ, ref.relation)[k.obj.id] == 0 {
        assert k.obj in set j | j in goals :: j.obj;
        assert k.obj == Object(ref.typ, k.obj.id);
        NotOnLeft(left, right, k.obj);
      }
    }
  }

  /** After a denial, an object on the right is not on the left. */
  lemma NotOnLeft(left: seq<LeftMsg>, right: seq<RightMsg>, o: Object)
    requires !Common(left, right) && (RightClean(right) ==> OnRight(right, o))
    requires RightClean(right) || forall q :: !OnLeft(left, q)
    requires LeftClean(left) || right == []
    ensures LeftClean(left) && !OnLeft(left, o)
  {
    assert right == [] ==> RightClean(right) && !OnRight(right, o);
  }

  method Weight2Userset(e: Env, ghost rank: Rank, store: Store, g: Goal, ref: Ref, faulty: bool,
                        ghost visited: set<Goal>)
    returns (r: Outcome)
    requires Grounded(e, rank, store) && ref.UsersetRef? && Listable(e, rank, g.user, ref.typ, ref.relation)
    requires Readable(e, rank, store, g.user, ref.typ, ref.relation)
    ensures Meets(r, SomeClaim(e, visited, UsersetGoals(e, g, [ref])))
    ensures !faulty ==> r.Answer?
  {
    ReadableReads(e, rank, store, g.user, faulty, ref.typ, ref.relation);
    r := IntersectUsersets(e, rank, LeafRows(e, store, g.user), g, ref, faulty);
    forall k | k in UsersetGoals(e, g, [ref])
      ensures if ListedFor(e, rank, LeafRows(e, store, g.user), ref.typ, ref.relation)[k.obj.id] > 0 then IsTrue(e, k)
              else IsFalse(e, k)
    {
      ListedIsTrue(e, rank, store, g.user, ref.typ, ref.relation, k.obj.id);
      assert k == Goal(Object(ref.typ, k.obj.id), ref.relation, g.user);
    }
    DecidedMeets(e, visited, UsersetGoals(e, g, [ref]), r);
  }

  /** All parents reachable through a tupleset are decided by listing, or lack the relation. */
  ghost predicate ListableParents(e: Env, rank: Rank, user: Subject, t: TypeName, ts: RelationName, c: RelationName)
    requires Acyclic(e, rank)
  {
    !user.Userset? &&
    forall q :: q in Restrictions(e, t, ts) && Defined(e, q.typ, c) ==> Listable(e, rank, user, q.typ, c)
  }

  /** What is read for all of them is merged without loss. */
  ghost predicate ReadableParents(e: Env, rank: Rank, store: Store, user: Subject, refs: seq<Ref>, c: RelationName)
    requires Acyclic(e, rank)
  {
    forall q :: q in refs && Defined(e, q.typ, c) ==> Readable(e, rank, store, user, q.typ, c)
  }

  /** One left producer for every type that defines the relation; the others are skipped. */
  method ProduceLeftChannels(e: Env, ghost rank: Rank, store: Store, user: Subject, faulty: bool, refs: seq<Ref>,
                             c: RelationName)
    returns (chans: seq<seq<LeftMsg>>, ghost types: seq<TypeName>, ok: bool)
    requires Grounded(e, rank, store)
    requires forall q :: q in refs && Defined(e, q.typ, c) ==>
               Listable(e, rank, user, q.typ, c) && Readable(e, rank, store, user, q.typ, c)
    ensures !faulty ==> ok && forall i :: 0 <= i < |chans| ==> LeftClean(chans[i])
    ensures |types| == |chans| && forall i :: 0 <= i < |chans| ==> Decides(e, chans[i], types[i], c, user)
    ensures ok ==> forall q :: q in refs && Defined(e, q.typ, c) ==> q.typ in types
  {
    chans, types, ok := [], [], true;
    for i := 0 to |refs|
      invariant !faulty ==> forall j :: 0 <= j < |chans| ==> LeftClean(chans[j])
      invariant |types| == |chans| && forall j :: 0 <= j < |chans| ==> Decides(e, chans[j], types[j], c, user)
      invariant forall q :: q in refs[..i] && Defined(e, q.typ, c) ==> q.typ in types
    {
      assert refs[..i + 1] == refs[..i] + [refs[i]];
      if Defined(e, refs[i].typ, c) {
        var left;
        left, ok := ProduceLeft(e, rank, store, user, faulty, refs[i].typ, c);
        if !ok { return; }
        chans, types := chans + [left], types + [refs[i].typ];
      }
    }
    ok := true;
    assert refs[..|refs|] == refs;
  }

  lemma FanInKeeps(chans: seq<seq<LeftMsg>>, left: seq<LeftMsg>, i: nat, o: Object)
    requires forall m :: m in left <==> exists i :: 0 <= i < |chans| && m in chans[i]
    requires i < |chans|
    ensures OnLeft(chans[i], o) ==> OnLeft(left, o)
  {
    if j :| 0 <= j < |chans[i]| && chans[i][j].Objects? && Some(o) in chans[i][j].answers {
      assert chans[i][j] in left;
    }
  }

  lemma FanInDecides(e: Env, chans: seq<seq<LeftMsg>>, types: seq<TypeName>, left: seq<LeftMsg>, user: Subject,
                     c: RelationName)
    requires |types| == |chans| && forall i :: 0 <= i < |chans| ==> Decides(e, chans[i], types[i], c, user)
    requires forall m :: m in left <==> exists i :: 0 <= i < |chans| && m in chans[i]
    ensures (forall i :: 0 <= i < |chans| ==> LeftClean(chans[i])) ==> LeftClean(left)
    ensures forall o :: OnLeft(left, o) ==> IsTrue(e, Goal(o, c, user))
    ensures LeftClean(left) ==> forall o: Object :: o.typ in types && !OnLeft(left, o) ==> IsFalse(e, Goal(o, c, user))
  {
    if forall i :: 0 <= i < |chans| ==> LeftClean(chans[i]) {
      forall j | 0 <= j < |left| ensures left[j].Objects? && None !in left[j].answers {
        assert left[j] in left;
        var i :| 0 <= i < |chans| && left[j] in chans[i];
      }
    }
    forall o | OnLeft(left, o) ensures IsTrue(e, Goal(o, c, user)) {
      var j :| 0 <= j < |left| && left[j].Objects? && Some(o) in left[j].answers;
      assert left[j] in left;
      var i :| 0 <= i < |chans| && left[j] in chans[i];
      assert OnLeft(chans[i], o);
    }
    if LeftClean(left) {
      forall o: Object | o.typ in types && !OnLeft(left, o) ensures IsFalse(e, Goal(o, c, user)) {
        var i :| 0 <= i < |types| && types[i] == o.typ;
        FanInKeeps(chans, left, i, o);
        CleanChannel(chans, left, i);
        assert o == Object(types[i], o.id);
      }
    }
  }

  lemma CleanChannel(chans: seq<seq<LeftMsg>>, left: seq<LeftMsg>, i: nat)
    requires forall m :: m in left <==> exists i :: 0 <= i < |chans| && m in chans[i]
    requires i < |chans| && LeftClean(left)
    ensures LeftClean(chans[i])
  {
    forall j | 0 <= j < |chans[i]| ensures chans[i][j].Objects? && None !in chans[i][j].answers {
      assert chans[i][j] in chans[i];
      assert chans[i][j] in left;
    }
  }

  method Weight2TTU(e: Env, ghost rank: Rank, store: Store, g: Goal, ts: RelationName, c: RelationName, faulty: bool,
                    ghost visited: set<Goal>)
    returns (r: Outcome)
    requires Grounded(e, rank, store) && ListableParents(e, rank, g.user, g.obj.typ, ts, c)
    requires ReadableParents(e, rank, store, g.user, Restrictions(e, g.obj.typ, ts), c)
    ensures Meets(r, SomeClaim(e, visited, TtuGoals(e, g, ts, c)))
    ensures !faulty ==> r.Answer?
  {
    var goals := TtuGoals(e, g, ts, c);
    var chans, ok;
    ghost var types;
    chans, types, ok := ProduceLeftChannels(e, rank, store, g.user, faulty, Restrictions(e, g.obj.typ, ts), c);
    if !ok { return Error; }
    forall k | k in goals ensures k.obj.typ in types {
      assert TypeRef(k.obj.typ) in Restrictions(e, g.obj.typ, ts);
    }
    if |chans| == 0 {
      DecidedMeets(e, visited, goals, DENIED);
      return DENIED;
    }
    var left := FanIn(chans);
    FanInDecides(e, chans, types, left, g.user, c);
    var right := ProduceRight(set t | t in e.tuples && t.obj == g.obj && t.relation == ts && t.subject.User? ::
        t.subject.obj, faulty);
    r := Intersect(left, right);
    if r.Allowed() {
      ghost var o :| OnLeft(left, o) && OnRight(right, o);
      assert Goal(o, c, g.user) in goals;
    }
    if r.Answer? && !r.allowed {
      forall k | k in goals ensures IsFalse(e, k) {
        NotOnLeft(left, right, k.obj);
        assert k == Goal(k.obj, c, g.user) && k.obj.typ in types;
      }
    }
    DecidedMeets(e, visited, goals, r);
  }
}
