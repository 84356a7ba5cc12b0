/** What the lists produced by the fast path say about goals. */
module FastPathMeaning {
  import opened Model
  import opened Semantics
  import opened Streams
  import opened Merge
  import opened Bags
  import opened FastPath
  import LeafReads

  /** What is read for the rewrite are exactly the objects directly related to the user. */
  ghost predicate Faithful(e: Env, rank: Rank, user: Subject, rows: Rows, t: TypeName, r: RelationName, rw: Rewrite)
    requires Acyclic(e, rank) && Compilable(e, rank, t, rank(t, r), rw)
  {
    forall c :: Reads(e, rank, t, r, rw, c) ==> ListsDirect(e, user, rows, t, c)
  }

  ghost predicate ListsDirect(e: Env, user: Subject, rows: Rows, t: TypeName, c: RelationName) {
    forall x: Id :: x in LeafReads.LeafList(rows(t, c)) <==> Direct(e, Goal(Object(t, x), c, user))
  }

  lemma {:induction false} CountStrict(s: seq<Id>, x: Id)
    requires StrictlyAscending(s)
    ensures Count(s, x) == if x in s then 1 else 0
  {
    if s != [] {
      CountHead(s, x);
      CountStrict(s[1..], x);
      assert s == [s[0]] + s[1..];
    }
  }

  // ----- lists and sets

  lemma FaithfulOperand(e: Env, rank: Rank, user: Subject, rows: Rows, t: TypeName, r: RelationName, rw: Rewrite,
                        i: nat)
    requires rw.Union? || rw.Intersection? || rw.Difference?
    requires Acyclic(e, rank) && Compilable(e, rank, t, rank(t, r), rw) && i < |OperandsOf(rw)|
    requires Faithful(e, rank, user, rows, t, r, rw)
    ensures Compilable(e, rank, t, rank(t, r), OperandsOf(rw)[i])
    ensures Faithful(e, rank, user, rows, t, r, OperandsOf(rw)[i])
  {
    forall c | Reads(e, rank, t, r, OperandsOf(rw)[i], c) ensures ListsDirect(e, user, rows, t, c) {
      OperandReads(e, rank, t, r, rw, i, c);
    }
  }

  /** The object is listed once if it is in the set, and otherwise not. */
  ghost predicate ListsOnce(e: Env, rank: Rank, user: Subject, rows: Rows, t: TypeName, r: RelationName, rw: Rewrite,
                            x: Id)
    requires Acyclic(e, rank) && Compilable(e, rank, t, rank(t, r), rw)
  {
    BagOf(e, rank, rows, t, r, rw)[x] == if Denotes(e, rank, user, t, r, rw, x) then 1 else 0
  }

  lemma UnionLists(e: Env, rank: Rank, user: Subject, rows: Rows, t: TypeName, r: RelationName, cs: seq<Rewrite>, x: Id)
    requires Acyclic(e, rank) && Compilable(e, rank, t, rank(t, r), Union(cs))
    requires forall i :: 0 <= i < |cs| ==> ListsOnce(e, rank, user, rows, t, r, cs[i], x)
    ensures ListsOnce(e, rank, user, rows, t, r, Union(cs), x)
  {
    var bags := BagsOf(e, rank, rows, t, r, cs);
    JoinIsLargest(bags, x);
    if i :| 0 <= i < |cs| && Denotes(e, rank, user, t, r, cs[i], x) {
      assert bags[i][x] == 1;
    }
  }

  lemma IntersectionLists(e: Env, rank: Rank, user: Subject, rows: Rows, t: TypeName, r: RelationName,
                          cs: seq<Rewrite>, x: Id)
    requires Acyclic(e, rank) && Compilable(e, rank, t, rank(t, r), Intersection(cs))
    requires forall i :: 0 <= i < |cs| ==> ListsOnce(e, rank, user, rows, t, r, cs[i], x)
    ensures ListsOnce(e, rank, user, rows, t, r, Intersection(cs), x)
  {
    var bags := BagsOf(e, rank, rows, t, r, cs);
    MeetIsSmallest(bags, x);
    if i :| 0 <= i < |cs| && !Denotes(e, rank, user, t, r, cs[i], x) {
      assert bags[i][x] == 0;
    }
  }

  /** Over faithful reads the pipeline is the set operation: every object of the set is listed exactly
      once, and nothing else is. */
  lemma {:induction false} ListsTheSet(e: Env, rank: Rank, user: Subject, rows: Rows, t: TypeName, r: RelationName,
                                       rw: Rewrite, x: Id)
    requires Acyclic(e, rank) && Compilable(e, rank, t, rank(t, r), rw)
    requires LeafReads.AllSorted(rows) && Faithful(e, rank, user, rows, t, r, rw)
    ensures ListsOnce(e, rank, user, rows, t, r, rw, x)
    decreases rank(t, r), rw
  {
    match rw
    case This =>
      assert Reads(e, rank, t, r, rw, r) && ListsDirect(e, user, rows, t, r);
      LeafReads.LeafIsStrict(rows(t, r));
      CountStrict(LeafReads.LeafList(rows(t, r)), x);
    case Computed(c) =>
      assert forall d :: Reads(e, rank, t, c, RewriteOf(e, t, c), d) ==> Reads(e, rank, t, r, rw, d);
      ListsTheSet(e, rank, user, rows, t, c, RewriteOf(e, t, c), x);
    case TupleToUserset(_, _) =>
    case Union(cs) =>
      forall i | 0 <= i < |cs|
        ensures ListsOnce(e, rank, user, rows, t, r, cs[i], x)
      {
        FaithfulOperand(e, rank, user, rows, t, r, rw, i);
        ListsTheSet(e, rank, user, rows, t, r, cs[i], x);
      }
      UnionLists(e, rank, user, rows, t, r, cs, x);
    case Intersection(cs) =>
      forall i | 0 <= i < |cs|
        ensures ListsOnce(e, rank, user, rows, t, r, cs[i], x)
      {
        FaithfulOperand(e, rank, user, rows, t, r, rw, i);
        ListsTheSet(e, rank, user, rows, t, r, cs[i], x);
      }
      IntersectionLists(e, rank, user, rows, t, r, cs, x);
    case Difference(b, s) =>
      FaithfulOperand(e, rank, user, rows, t, r, rw, 0);
      FaithfulOperand(e, rank, user, rows, t, r, rw, 1);
      ListsTheSet(e, rank, user, rows, t, r, b, x);
      ListsTheSet(e, rank, user, rows, t, r, s, x);
  }

  /** On inputs with repetitions the difference lists the right objects exactly when no subtracted
      object occurs more often in the base than in the subtracted stream. */
  lemma DifferenceIsSetDifferenceIff(base: seq<Id>, sub: seq<Id>, out: seq<Id>)
    requires DiffSpec(base, sub, out)
    ensures (forall x: Id :: x in out <==> x in base && x !in sub) <==>
            (forall x: Id :: x in sub ==> Count(base, x) <= Count(sub, x))
  {
    forall x: Id
      ensures (x in out <==> x in base && x !in sub) <==> (x in sub ==> Count(base, x) <= Count(sub, x))
    {
      CountPresent(out, x);
      CountPresent(base, x);
      CountPresent(sub, x);
    }
  }

  // ----- which relations the fast path decides

  /** Some chain of the model leads from users of kind `ref` to the rewrite of relation `r`. */
  ghost predicate Reaches(e: Env, ref: Ref, t: TypeName, r: RelationName, rw: Rewrite)
    decreases rw
  {
    match rw
    case This =>
      || ref in Restrictions(e, t, r)
      || (ref.TypeRef? && WildcardRef(ref.typ) in Restrictions(e, t, r))
      || exists q :: q in Restrictions(e, t, r) && q.UsersetRef? && (ref, q.typ, q.relation) in e.paths
    case Computed(c) => (ref, t, c) in e.paths
    case TupleToUserset(ts, c) =>
      exists q :: q in Restrictions(e, t, ts) && q.TypeRef? && Defined(e, q.typ, c) && (ref, q.typ, c) in e.paths
    case Union(cs) => exists i :: 0 <= i < |cs| && Reaches(e, ref, t, r, cs[i])
    case Intersection(cs) => exists i :: 0 <= i < |cs| && Reaches(e, ref, t, r, cs[i])
    case Difference(b, s) => Reaches(e, ref, t, r, b) || Reaches(e, ref, t, r, s)
  }

  /** PathExists answers true wherever a chain leads. */
  ghost predicate PathClosed(e: Env) {
    forall ref, t, r :: Defined(e, t, r) && Reaches(e, ref, t, r, RewriteOf(e, t, r)) ==> (ref, t, r) in e.paths
  }

  /** The rewrite has weight one for the user: no further read of usersets or parents can matter. */
  ghost predicate WeightOne(e: Env, rank: Rank, ref: Ref, t: TypeName, r: RelationName, rw: Rewrite)
    requires Acyclic(e, rank) && Compilable(e, rank, t, rank(t, r), rw)
    decreases rank(t, r), rw
  {
    match rw
    case This => forall q :: q in Restrictions(e, t, r) && q.UsersetRef? ==> (ref, q.typ, q.relation) !in e.paths
    case Computed(c) => WeightOne(e, rank, ref, t, c, RewriteOf(e, t, c))
    case TupleToUserset(ts, c) =>
      forall q :: q in Restrictions(e, t, ts) && q.TypeRef? && Defined(e, q.typ, c) ==> (ref, q.typ, c) !in e.paths
    case Union(cs) => forall i :: 0 <= i < |cs| ==> WeightOne(e, rank, ref, t, r, cs[i])
    case Intersection(cs) => |cs| >= 2 && forall i :: 0 <= i < |cs| ==> WeightOne(e, rank, ref, t, r, cs[i])
    case Difference(b, s) => WeightOne(e, rank, ref, t, r, b) && WeightOne(e, rank, ref, t, r, s)
  }

  lemma {:induction false} DenotesReaches(e: Env, rank: Rank, user: Subject, t: TypeName, r: RelationName, rw: Rewrite,
                                          x: Id)
    requires Acyclic(e, rank) && Compilable(e, rank, t, rank(t, r), rw)
    requires ValidTuples(e) && PathClosed(e)
    requires Denotes(e, rank, user, t, r, rw, x)
    ensures Reaches(e, RefOf(user), t, r, rw)
    decreases rank(t, r), rw
  {
    match rw
    case This =>
      if Public(e, Goal(Object(t, x), r, user)) {
        assert RefOf(Wildcard(user.obj.typ)) in Restrictions(e, t, r);
      }
    case Computed(c) => DenotesReaches(e, rank, user, t, c, RewriteOf(e, t, c), x);
    case Union(cs) =>
      var i :| 0 <= i < |cs| && Denotes(e, rank, user, t, r, cs[i], x);
      DenotesReaches(e, rank, user, t, r, cs[i], x);
    case Intersection(cs) => DenotesReaches(e, rank, user, t, r, cs[0], x);
    case Difference(b, s) => DenotesReaches(e, rank, user, t, r, b, x);
  }

  /** A goal that no path reaches fails, whatever the tuples. */
  lemma NoPathFails(e: Env, g: Goal)
    requires !HasPath(e, g) && !g.user.Userset? && Defined(e, g.obj.typ, g.relation)
    ensures Fails(e, 1, g)
  {
    assert Unsupported(e, 0, iset{g}, g);
    assert Unfounded(e, 0, iset{g});
  }

  /** For weight one the list decides the rewrite: members satisfy it and the others refute it. */
  lemma {:induction false} WeightOneMeaning(e: Env, rank: Rank, user: Subject, t: TypeName, r: RelationName,
                                            rw: Rewrite, x: Id)
    requires Acyclic(e, rank) && Compilable(e, rank, t, rank(t, r), rw)
    requires ValidTuples(e) && PathClosed(e) && !user.Userset?
    requires WeightOne(e, rank, RefOf(user), t, r, rw)
    ensures var g := Goal(Object(t, x), r, user);
            if Denotes(e, rank, user, t, r, rw, x) then IsTrueRw(e, g, rw) else IsFalseRw(e, g, rw)
    decreases rank(t, r), rw
  {
    var g := Goal(Object(t, x), r, user);
    match rw
    case This =>
      if Direct(e, g) {
        assert HoldsRw(e, 0, g, rw);
      } else {
        forall k | k in AllUsersets(e, g) ensures FailsIn(e, 1, iset{}, k) {
          NoPathFails(e, k);
        }
        assert FailsRw(e, 1, iset{}, g, rw);
      }
    case Computed(c) =>
      WeightOneMeaning(e, rank, user, t, c, RewriteOf(e, t, c), x);
      var k := Goal(Object(t, x), c, user);
      if Denotes(e, rank, user, t, r, rw, x) {
        DenotesReaches(e, rank, user, t, r, rw, x);
        GoalTrue(e, k);
        var n: nat :| Holds(e, n, k);
        assert HoldsRw(e, n, g, rw);
      } else {
        GoalFalse(e, k);
        var n: nat :| Fails(e, n, k);
        assert FailsRw(e, n, iset{}, g, rw);
      }
    case TupleToUserset(ts, c) =>
      forall k | k in TtuGoals(e, g, ts, c) ensures FailsIn(e, 1, iset{}, k) {
        assert TypeRef(k.obj.typ) in Restrictions(e, t, ts);
        NoPathFails(e, k);
      }
      assert FailsRw(e, 1, iset{}, g, rw);
    case Union(cs) =>
      forall i | 0 <= i < |cs| { WeightOneMeaning(e, rank, user, t, r, cs[i], x); }
      UnionMeaning(e, g, cs);
    case Intersection(cs) =>
      forall i | 0 <= i < |cs| { WeightOneMeaning(e, rank, user, t, r, cs[i], x); }
      IntersectionMeaning(e, g, cs);
    case Difference(b, s) =>
      WeightOneMeaning(e, rank, user, t, r, b, x);
      WeightOneMeaning(e, rank, user, t, r, s, x);
      DifferenceMeaning(e, g, b, s);
  }
}
