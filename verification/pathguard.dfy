/** The checker denies a goal outright when no path of the model leads to it.  On a closed set of paths that
    guard changes nothing: goals mean what they would mean without it. */
module PathGuard {
  import opened Model
  import opened Semantics
  import opened FastPath
  import opened FastPathMeaning

  /** The same model and store; the paths may differ. */
  predicate SameButPaths(a: Env, b: Env) {
    a.relations == b.relations && a.tuples == b.tuples
  }

  /** PathExists answers true wherever a chain leads from users of this kind. */
  ghost predicate ClosedFor(e: Env, ref: Ref) {
    forall t, r :: Defined(e, t, r) && Reaches(e, ref, t, r, RewriteOf(e, t, r)) ==> (ref, t, r) in e.paths
  }

  /** What is needed of a model, its paths and its store for one user. */
  ghost predicate Guarded(e: Env, rank: Rank, user: Subject) {
    Acyclic(e, rank) && ValidTuples(e) && ClosedFor(e, RefOf(user)) && !user.Userset?
  }

  lemma DirectIsReached(e: Env, g: Goal)
    requires ValidTuples(e) && Direct(e, g)
    ensures Reaches(e, RefOf(g.user), g.obj.typ, g.relation, This)
  {
    if Public(e, g) {
      assert RefOf(Wildcard(g.user.obj.typ)) in Restrictions(e, g.obj.typ, g.relation);
    }
  }

  /** Whatever holds is reached. */
  lemma {:induction false} HoldsIsReached(e: Env, rank: Rank, n: nat, g: Goal, rw: Rewrite)
    requires Guarded(e, rank, g.user) && HoldsRw(e, n, g, rw)
    ensures Reaches(e, RefOf(g.user), g.obj.typ, g.relation, rw)
    decreases rw
  {
    match rw
    case This =>
      if Direct(e, g) {
        DirectIsReached(e, g);
      } else {
        var k :| k in AllUsersets(e, g) && Holds(e, n, k);
        assert HasPath(e, k);
      }
    case Computed(c) => assert HasPath(e, Goal(g.obj, c, g.user));
    case TupleToUserset(ts, c) =>
      var k :| k in TtuGoals(e, g, ts, c) && Holds(e, n, k);
      assert TypeRef(k.obj.typ) in Restrictions(e, g.obj.typ, ts) && HasPath(e, k);
    case Union(cs) =>
      var i :| 0 <= i < |cs| && HoldsRw(e, n, g, cs[i]);
      HoldsIsReached(e, rank, n, g, cs[i]);
    case Intersection(cs) => HoldsIsReached(e, rank, n, g, cs[0]);
    case Difference(b, _) => HoldsIsReached(e, rank, n, g, b);
  }

  /** The goals of a user that no path leads to. */
  ghost function Unreached(e: Env, user: Subject): iset<Goal> {
    iset k: Goal | k.user == user && Defined(e, k.obj.typ, k.relation) && !HasPath(e, k)
  }

  /** A rewrite that is not reached fails, as long as goals without a path do. */
  lemma {:induction false} NotReachedFails(a: Env, b: Env, rank: Rank, n: nat, u: iset<Goal>, g: Goal, rw: Rewrite)
    requires SameButPaths(a, b) && Guarded(a, rank, g.user) && Unreached(a, g.user) <= u
    requires Compilable(a, rank, g.obj.typ, rank(g.obj.typ, g.relation), rw)
    requires !Reaches(a, RefOf(g.user), g.obj.typ, g.relation, rw)
    ensures FailsRw(b, n, u, g, rw)
    decreases rw
  {
    match rw
    case This =>
      if Direct(a, g) {
        DirectIsReached(a, g);
      }
      forall k | k in AllUsersets(b, g) ensures k in u {
        assert !HasPath(a, k);
      }
    case Computed(c) =>
    case TupleToUserset(ts, c) =>
      forall k | k in TtuGoals(b, g, ts, c) ensures k in u {
        assert TypeRef(k.obj.typ) in Restrictions(a, g.obj.typ, ts) && !HasPath(a, k);
      }
    case Union(cs) =>
      forall i | 0 <= i < |cs| { NotReachedFails(a, b, rank, n, u, g, cs[i]); }
    case Intersection(cs) => NotReachedFails(a, b, rank, n, u, g, cs[0]);
    case Difference(x, _) => NotReachedFails(a, b, rank, n, u, g, x);
  }

  /** Goals that hold by one set of paths hold by the other. */
  lemma {:induction false} HoldsToo(a: Env, b: Env, rank: Rank, n: nat, g: Goal)
    requires SameButPaths(a, b) && Guarded(a, rank, g.user) && Guarded(b, rank, g.user) && Holds(a, n, g)
    ensures Holds(b, n, g)
    decreases n, 0
  {
    var rw := RewriteOf(a, g.obj.typ, g.relation);
    HoldsRwToo(a, b, rank, n - 1, g, rw);
    HoldsIsReached(b, rank, n - 1, g, rw);
  }

  lemma {:induction false} HoldsRwToo(a: Env, b: Env, rank: Rank, n: nat, g: Goal, rw: Rewrite)
    requires SameButPaths(a, b) && Guarded(a, rank, g.user) && Guarded(b, rank, g.user) && HoldsRw(a, n, g, rw)
    ensures HoldsRw(b, n, g, rw)
    decreases n, 3, rw
  {
    match rw
    case This =>
      if !Direct(a, g) {
        var k :| k in AllUsersets(a, g) && Holds(a, n, k);
        HoldsToo(a, b, rank, n, k);
      }
    case Computed(c) => HoldsToo(a, b, rank, n, Goal(g.obj, c, g.user));
    case TupleToUserset(ts, c) =>
      var k :| k in TtuGoals(a, g, ts, c) && Holds(a, n, k);
      HoldsToo(a, b, rank, n, k);
    case Union(cs) =>
      var i :| 0 <= i < |cs| && HoldsRw(a, n, g, cs[i]);
      HoldsRwToo(a, b, rank, n, g, cs[i]);
    case Intersection(cs) =>
      forall i | 0 <= i < |cs| { HoldsRwToo(a, b, rank, n, g, cs[i]); }
    case Difference(x, y) =>
      HoldsRwToo(a, b, rank, n, g, x);
      FailsRwToo(a, b, rank, n, iset{}, iset{}, g, y);
  }

  lemma {:induction false} FailsToo(a: Env, b: Env, rank: Rank, n: nat, g: Goal)
    requires SameButPaths(a, b) && Guarded(a, rank, g.user) && Guarded(b, rank, g.user) && Fails(a, n, g)
    ensures Fails(b, n, g)
    decreases n, 0
  {
    var u: iset<Goal> :| g in u && Unfounded(a, n - 1, u);
    var more := (iset k | k in u && k.user == g.user) + Unreached(a, g.user);
    forall k | k in more ensures Unsupported(b, n - 1, more, k) {
      assert k in u ==> Unsupported(a, n - 1, u, k);
      var rw := RewriteOf(a, k.obj.typ, k.relation);
      if HasPath(a, k) {
        FailsRwToo(a, b, rank, n - 1, u, more, k, rw);
      } else {
        NotReachedFails(a, b, rank, n - 1, more, k, rw);
      }
    }
    assert g in more by {
      assert Unsupported(a, n - 1, u, g);
    }
    assert Unfounded(b, n - 1, more);
  }

  lemma {:induction false} FailsRwToo(a: Env, b: Env, rank: Rank, n: nat, u: iset<Goal>, more: iset<Goal>, g: Goal,
                                      rw: Rewrite)
    requires SameButPaths(a, b) && Guarded(a, rank, g.user) && Guarded(b, rank, g.user) && FailsRw(a, n, u, g, rw)
    requires forall k :: k in u && k.user == g.user ==> k in more
    ensures FailsRw(b, n, more, g, rw)
    decreases n, 3, rw
  {
    match rw
    case This =>
      forall k | k in AllUsersets(b, g) ensures FailsIn(b, n, more, k) { FailsInToo(a, b, rank, n, u, more, k); }
    case Computed(c) => FailsInToo(a, b, rank, n, u, more, Goal(g.obj, c, g.user));
    case TupleToUserset(ts, c) =>
      forall k | k in TtuGoals(b, g, ts, c) ensures FailsIn(b, n, more, k) { FailsInToo(a, b, rank, n, u, more, k); }
    case Union(cs) =>
      forall i | 0 <= i < |cs| { FailsRwToo(a, b, rank, n, u, more, g, cs[i]); }
    case Intersection(cs) =>
      var i :| 0 <= i < |cs| && FailsRw(a, n, u, g, cs[i]);
      FailsRwToo(a, b, rank, n, u, more, g, cs[i]);
    case Difference(x, y) =>
      if FailsRw(a, n, u, g, x) {
        FailsRwToo(a, b, rank, n, u, more, g, x);
      } else {
        HoldsRwToo(a, b, rank, n, g, y);
      }
  }

  lemma {:induction false} FailsInToo(a: Env, b: Env, rank: Rank, n: nat, u: iset<Goal>, more: iset<Goal>, k: Goal)
    requires SameButPaths(a, b) && Guarded(a, rank, k.user) && Guarded(b, rank, k.user) && FailsIn(a, n, u, k)
    requires forall j :: j in u && j.user == k.user ==> j in more
    ensures FailsIn(b, n, more, k)
    decreases n, 1
  {
    if k !in u {
      FailsToo(a, b, rank, n, k);
    }
  }

  /** The same, with a path to every relation there is: the guard never applies. */
  function Unguarded(e: Env, ref: Ref): Env {
    e.(paths := e.paths + set k | k in e.relations :: (ref, k.0, k.1))
  }

  /** The guard makes no difference to what goals of a user mean. */
  lemma GuardIsIrrelevant(e: Env, rank: Rank, g: Goal)
    requires Acyclic(e, rank) && ValidTuples(e) && PathClosed(e) && !g.user.Userset?
    ensures IsTrue(e, g) <==> IsTrue(Unguarded(e, RefOf(g.user)), g)
    ensures IsFalse(e, g) <==> IsFalse(Unguarded(e, RefOf(g.user)), g)
    ensures Defined(e, g.obj.typ, g.relation) ==> HasPath(Unguarded(e, RefOf(g.user)), g)
  {
    var b := Unguarded(e, RefOf(g.user));
    AcyclicToo(e, b, rank);
    if n: nat :| Holds(e, n, g) { HoldsToo(e, b, rank, n, g); }
    if n: nat :| Holds(b, n, g) { HoldsToo(b, e, rank, n, g); }
    if n: nat :| Fails(e, n, g) { FailsToo(e, b, rank, n, g); }
    if n: nat :| Fails(b, n, g) { FailsToo(b, e, rank, n, g); }
  }

  lemma AcyclicToo(a: Env, b: Env, rank: Rank)
    requires a.relations == b.relations && Acyclic(a, rank)
    ensures Acyclic(b, rank)
  {
    forall t, r | Defined(b, t, r) ensures Compilable(b, rank, t, rank(t, r), RewriteOf(b, t, r)) {
      assert Defined(a, t, r);
      CompilableSame(a, b, rank, t, rank(t, r), RewriteOf(a, t, r));
    }
  }

  lemma {:induction false} CompilableSame(a: Env, b: Env, rank: Rank, t: TypeName, bound: nat, rw: Rewrite)
    requires a.relations == b.relations && Compilable(a, rank, t, bound, rw)
    ensures Compilable(b, rank, t, bound, rw)
    decreases rw
  {
    match rw
    case Union(cs) => forall i | 0 <= i < |cs| { CompilableSame(a, b, rank, t, bound, cs[i]); }
    case Intersection(cs) => forall i | 0 <= i < |cs| { CompilableSame(a, b, rank, t, bound, cs[i]); }
    case Difference(x, y) =>
      CompilableSame(a, b, rank, t, bound, x);
      CompilableSame(a, b, rank, t, bound, y);
    case _ =>
  }
}
