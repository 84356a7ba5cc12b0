/** What an outcome of the checker vouches for, in terms of the meaning of goals. */
module Claims {
  import opened Model
  import opened Semantics
  import opened Reducers

  /** No goal on the current path has a derivation as short as `h`. */
  ghost predicate Unblocked(e: Env, visited: set<Goal>, h: nat) {
    forall v :: v in visited ==> !Holds(e, h, v)
  }

  /** In a model without exclusion, a goal is due when it has a derivation shorter than those of all
      goals on the current path: cutting cycles must not deny it. */
  ghost predicate Due(e: Env, visited: set<Goal>, g: Goal) {
    ExclusionFree(e) && exists h: nat :: Holds(e, h, g) && Unblocked(e, visited, h)
  }

  ghost predicate DueRw(e: Env, visited: set<Goal>, g: Goal, rw: Rewrite) {
    ExclusionFree(e) && exists h: nat :: HoldsRw(e, h, g, rw) && Unblocked(e, visited, h)
  }

  ghost predicate DueSome(e: Env, visited: set<Goal>, goals: set<Goal>) {
    exists k :: k in goals && Due(e, visited, k)
  }

  // ----- goals whose sub-goals never come back

  /** Every chain of sub-goals from `g` ends within `n` goals, none of which lies on the path before it. */
  ghost predicate Loopless(e: Env, n: nat, visited: set<Goal>, g: Goal)
    decreases n, 0
  {
    && n > 0 && g !in visited
    && (!SelfDefining(g) && Defined(e, g.obj.typ, g.relation) && HasPath(e, g) ==>
          LooplessRw(e, n - 1, visited + {g}, g, RewriteOf(e, g.obj.typ, g.relation)))
  }

  ghost predicate LooplessRw(e: Env, n: nat, visited: set<Goal>, g: Goal, rw: Rewrite)
    decreases n, 2, rw
  {
    match rw
    case This => AllLoopless(e, n, visited, AllUsersets(e, g))
    case Computed(r) => Loopless(e, n, visited, Goal(g.obj, r, g.user))
    case TupleToUserset(ts, c) => AllLoopless(e, n, visited, TtuGoals(e, g, ts, c))
    case Union(cs) => forall i :: 0 <= i < |cs| ==> LooplessRw(e, n, visited, g, cs[i])
    case Intersection(cs) => forall i :: 0 <= i < |cs| ==> LooplessRw(e, n, visited, g, cs[i])
    case Difference(b, s) => LooplessRw(e, n, visited, g, b) && LooplessRw(e, n, visited, g, s)
  }

  ghost predicate AllLoopless(e: Env, n: nat, visited: set<Goal>, goals: set<Goal>)
    decreases n, 1
  {
    forall k :: k in goals ==> Loopless(e, n, visited, k)
  }

  ghost predicate IsLoopless(e: Env, visited: set<Goal>, g: Goal) {
    exists n: nat :: Loopless(e, n, visited, g)
  }

  ghost predicate IsLooplessRw(e: Env, visited: set<Goal>, g: Goal, rw: Rewrite) {
    exists n: nat :: LooplessRw(e, n, visited, g, rw)
  }

  /** The relations can be put on levels so that every sub-goal is on a lower one than its goal. */
  ghost predicate Descends(e: Env, level: (TypeName, RelationName) -> nat) {
    forall t, r :: Defined(e, t, r) ==> DescendsRw(e, level, t, r, RewriteOf(e, t, r))
  }

  ghost predicate DescendsRw(e: Env, level: (TypeName, RelationName) -> nat, t: TypeName, r: RelationName, rw: Rewrite)
    decreases rw
  {
    match rw
    case This => forall q :: q in Restrictions(e, t, r) && q.UsersetRef? ==> level(q.typ, q.relation) < level(t, r)
    case Computed(c) => level(t, c) < level(t, r)
    case TupleToUserset(ts, c) =>
      forall q :: q in Restrictions(e, t, ts) && q.TypeRef? && Defined(e, q.typ, c) ==> level(q.typ, c) < level(t, r)
    case Union(cs) => forall i :: 0 <= i < |cs| ==> DescendsRw(e, level, t, r, cs[i])
    case Intersection(cs) => forall i :: 0 <= i < |cs| ==> DescendsRw(e, level, t, r, cs[i])
    case Difference(b, s) => DescendsRw(e, level, t, r, b) && DescendsRw(e, level, t, r, s)
  }

  ghost predicate AllHigher(visited: set<Goal>, level: (TypeName, RelationName) -> nat, n: int) {
    forall v :: v in visited ==> level(v.obj.typ, v.relation) > n
  }

  /** In a model without recursion no chain of sub-goals comes back, whatever the tuples. */
  lemma {:induction false} DescendingIsLoopless(e: Env, level: (TypeName, RelationName) -> nat, n: nat,
                                                visited: set<Goal>, g: Goal)
    requires ValidTuples(e) && Descends(e, level) && n > level(g.obj.typ, g.relation)
    requires AllHigher(visited, level, level(g.obj.typ, g.relation))
    ensures Loopless(e, n, visited, g)
    decreases n, 1
  {
    if Defined(e, g.obj.typ, g.relation) {
      RewriteIsLoopless(e, level, n - 1, visited + {g}, g, RewriteOf(e, g.obj.typ, g.relation));
    }
  }

  lemma {:induction false} RewriteIsLoopless(e: Env, level: (TypeName, RelationName) -> nat, n: nat,
                                             visited: set<Goal>, g: Goal, rw: Rewrite)
    requires ValidTuples(e) && Descends(e, level) && DescendsRw(e, level, g.obj.typ, g.relation, rw)
    requires n >= level(g.obj.typ, g.relation) && AllHigher(visited, level, level(g.obj.typ, g.relation) - 1)
    ensures LooplessRw(e, n, visited, g, rw)
    decreases n, 2, rw
  {
    match rw
    case This =>
      forall k | k in AllUsersets(e, g) ensures Loopless(e, n, visited, k) {
        assert UsersetRef(k.obj.typ, k.relation) in Restrictions(e, g.obj.typ, g.relation);
        DescendingIsLoopless(e, level, n, visited, k);
      }
    case Computed(r) => DescendingIsLoopless(e, level, n, visited, Goal(g.obj, r, g.user));
    case TupleToUserset(ts, c) =>
      forall k | k in TtuGoals(e, g, ts, c) ensures Loopless(e, n, visited, k) {
        assert TypeRef(k.obj.typ) in Restrictions(e, g.obj.typ, ts);
        DescendingIsLoopless(e, level, n, visited, k);
      }
    case Union(cs) =>
      forall i | 0 <= i < |cs| ensures LooplessRw(e, n, visited, g, cs[i]) {
        RewriteIsLoopless(e, level, n, visited, g, cs[i]);
      }
    case Intersection(cs) =>
      forall i | 0 <= i < |cs| ensures LooplessRw(e, n, visited, g, cs[i]) {
        RewriteIsLoopless(e, level, n, visited, g, cs[i]);
      }
    case Difference(b, s) =>
      RewriteIsLoopless(e, level, n, visited, g, b);
      RewriteIsLoopless(e, level, n, visited, g, s);
  }

  // ----- claims

  ghost function GoalClaim(e: Env, visited: set<Goal>, g: Goal): Claim {
    Claim(IsTrue(e, g), IsFalse(e, g), Due(e, visited, g), IsLoopless(e, visited, g))
  }

  ghost function RewriteClaim(e: Env, visited: set<Goal>, g: Goal, rw: Rewrite): Claim {
    Claim(IsTrueRw(e, g, rw), IsFalseRw(e, g, rw), DueRw(e, visited, g, rw), IsLooplessRw(e, visited, g, rw))
  }

  /** The claim that one of several goals holds. */
  ghost function SomeClaim(e: Env, visited: set<Goal>, goals: set<Goal>): Claim {
    Claim(exists k :: k in goals && IsTrue(e, k), forall k :: k in goals ==> IsFalse(e, k), DueSome(e, visited, goals),
          forall k :: k in goals ==> IsLoopless(e, visited, k))
  }

  // ----- from the rewrite of a goal to the goal

  /** The shortest derivation of a due goal is shorter than those of the goals on the path, and so
      is what it is made of, once the goal itself joins the path. */
  lemma DueStep(e: Env, visited: set<Goal>, g: Goal)
    requires Due(e, visited, g) && !SelfDefining(g)
    ensures Defined(e, g.obj.typ, g.relation) && HasPath(e, g)
    ensures DueRw(e, visited + {g}, g, RewriteOf(e, g.obj.typ, g.relation))
    ensures g !in visited
  {
    var h: nat :| Holds(e, h, g) && Unblocked(e, visited, h);
    var least := Shortest(e, g, h);
    forall v | v in visited + {g} ensures !Holds(e, least - 1, v) {
      if v in visited && Holds(e, least - 1, v) {
        HoldsMono(e, least - 1, h, v);
      }
    }
    assert HoldsRw(e, least - 1, g, RewriteOf(e, g.obj.typ, g.relation));
  }

  lemma {:induction false} Shortest(e: Env, g: Goal, h: nat) returns (least: nat)
    requires Holds(e, h, g)
    ensures 0 < least <= h && Holds(e, least, g) && !Holds(e, least - 1, g)
  {
    if Holds(e, h - 1, g) {
      least := Shortest(e, g, h - 1);
    } else {
      least := h;
    }
  }

  lemma GoalMeets(e: Env, visited: set<Goal>, g: Goal, o: Outcome)
    requires !SelfDefining(g) && Defined(e, g.obj.typ, g.relation)
    requires HasPath(e, g) && Meets(o, RewriteClaim(e, visited + {g}, g, RewriteOf(e, g.obj.typ, g.relation)))
    ensures Meets(o, GoalClaim(e, visited, g))
  {
    var rw := RewriteOf(e, g.obj.typ, g.relation);
    if IsTrueRw(e, g, rw) { GoalTrue(e, g); }
    if IsFalseRw(e, g, rw) { GoalFalse(e, g); }
    if Due(e, visited, g) { DueStep(e, visited, g); }
    if n: nat :| Loopless(e, n, visited, g) {
      assert LooplessRw(e, n - 1, visited + {g}, g, rw);
    }
  }

  lemma NoPathMeets(e: Env, visited: set<Goal>, g: Goal)
    requires !SelfDefining(g) && Defined(e, g.obj.typ, g.relation) && !HasPath(e, g)
    ensures Meets(DENIED, GoalClaim(e, visited, g))
  {
    GoalFalse(e, g);
    if Due(e, visited, g) { DueStep(e, visited, g); }
  }

  /** A goal that is its own user holds at once, and a goal met again on its path is never due. */
  lemma TrivialMeets(e: Env, visited: set<Goal>, g: Goal)
    ensures SelfDefining(g) ==> Meets(Answer(true, false), GoalClaim(e, visited, g))
    ensures g in visited ==> Meets(Answer(false, true), GoalClaim(e, visited, g))
  {
    if SelfDefining(g) {
      assert Holds(e, 1, g);
    }
  }

  // ----- from sub-goals and operands to a rewrite

  lemma ComputedMeets(e: Env, visited: set<Goal>, g: Goal, r: RelationName, o: Outcome)
    requires Meets(o, GoalClaim(e, visited, Goal(g.obj, r, g.user)))
    ensures Meets(o, RewriteClaim(e, visited, g, Computed(r)))
  {
    var k := Goal(g.obj, r, g.user);
    if n: nat :| Holds(e, n, k) { assert HoldsRw(e, n, g, Computed(r)); }
    if n: nat :| Fails(e, n, k) { assert FailsRw(e, n, iset{}, g, Computed(r)); }
    if n: nat :| LooplessRw(e, n, visited, g, Computed(r)) { assert Loopless(e, n, visited, k); }
  }

  lemma TtuMeets(e: Env, visited: set<Goal>, g: Goal, ts: RelationName, c: RelationName, o: Outcome)
    requires Meets(o, SomeClaim(e, visited, TtuGoals(e, g, ts, c)))
    ensures Meets(o, RewriteClaim(e, visited, g, TupleToUserset(ts, c)))
  {
    var rw := TupleToUserset(ts, c);
    var goals := TtuGoals(e, g, ts, c);
    if k :| k in goals && IsTrue(e, k) {
      var n: nat :| Holds(e, n, k);
      assert HoldsRw(e, n, g, rw);
    }
    if forall k :: k in goals ==> IsFalse(e, k) {
      var n := CommonFails(e, goals);
      assert FailsRw(e, n, iset{}, g, rw);
    }
    if DueRw(e, visited, g, rw) {
      var h: nat :| HoldsRw(e, h, g, rw) && Unblocked(e, visited, h);
      assert AnyHolds(e, h, goals);
      var k :| k in goals && Holds(e, h, k);
      assert Due(e, visited, k);
    }
    if n: nat :| LooplessRw(e, n, visited, g, rw) {
      assert AllLoopless(e, n, visited, goals);
    }
  }

  /** The claim of a single read, which is always definitive. */
  function ReadClaim(found: bool): Claim {
    Claim(found, !found, found, true)
  }

  /** The direct rewrite is the union of what the stored tuples say and of the userset goals. */
  lemma ThisMeaning(e: Env, visited: set<Goal>, g: Goal)
    ensures var users, c := SomeClaim(e, visited, AllUsersets(e, g)), RewriteClaim(e, visited, g, This);
            && (Direct(e, g) || users.holds ==> c.holds)
            && (!Direct(e, g) && users.fails ==> c.fails)
            && (c.due ==> Direct(e, g) || users.due)
            && (c.loopless ==> users.loopless)
  {
    var users, c := SomeClaim(e, visited, AllUsersets(e, g)), RewriteClaim(e, visited, g, This);
    if Direct(e, g) { assert HoldsRw(e, 0, g, This); }
    if users.holds {
      var k :| k in AllUsersets(e, g) && IsTrue(e, k);
      var n: nat :| Holds(e, n, k);
      assert HoldsRw(e, n, g, This);
    }
    if !Direct(e, g) && users.fails {
      var n := CommonFails(e, AllUsersets(e, g));
      assert FailsRw(e, n, iset{}, g, This);
    }
    if c.due && !Direct(e, g) {
      var h: nat :| HoldsRw(e, h, g, This) && Unblocked(e, visited, h);
      assert AnyHolds(e, h, AllUsersets(e, g));
      var k :| k in AllUsersets(e, g) && Holds(e, h, k);
      assert Due(e, visited, k);
    }
    if n: nat :| LooplessRw(e, n, visited, g, This) {
      assert AllLoopless(e, n, visited, AllUsersets(e, g));
    }
  }

  /** A union, intersection or exclusion of rewrites, from the claims of its operands. */
  lemma OperatorClaims(e: Env, visited: set<Goal>, g: Goal, cs: seq<Rewrite>)
    ensures var u := RewriteClaim(e, visited, g, Union(cs));
            && (forall i :: 0 <= i < |cs| && IsTrueRw(e, g, cs[i]) ==> u.holds)
            && ((forall i :: 0 <= i < |cs| ==> IsFalseRw(e, g, cs[i])) ==> u.fails)
            && (u.due ==> exists i :: 0 <= i < |cs| && DueRw(e, visited, g, cs[i]))
            && (u.loopless ==> forall i :: 0 <= i < |cs| ==> IsLooplessRw(e, visited, g, cs[i]))
    ensures var u := RewriteClaim(e, visited, g, Intersection(cs));
            && (|cs| >= 2 && (forall i :: 0 <= i < |cs| ==> IsTrueRw(e, g, cs[i])) ==> u.holds)
            && (forall i :: 0 <= i < |cs| && IsFalseRw(e, g, cs[i]) ==> u.fails)
            && (u.due ==> forall i :: 0 <= i < |cs| ==> DueRw(e, visited, g, cs[i]))
            && (u.loopless ==> forall i :: 0 <= i < |cs| ==> IsLooplessRw(e, visited, g, cs[i]))
  {
    UnionMeaning(e, g, cs);
    IntersectionMeaning(e, g, cs);
    OperandsLoopless(e, visited, g, cs);
    if DueRw(e, visited, g, Union(cs)) {
      var h: nat :| HoldsRw(e, h, g, Union(cs)) && Unblocked(e, visited, h);
      var i :| 0 <= i < |cs| && HoldsRw(e, h, g, cs[i]);
      assert DueRw(e, visited, g, cs[i]);
    }
  }

  lemma OperandsLoopless(e: Env, visited: set<Goal>, g: Goal, cs: seq<Rewrite>)
    ensures IsLooplessRw(e, visited, g, Union(cs)) || IsLooplessRw(e, visited, g, Intersection(cs)) ==>
              forall i :: 0 <= i < |cs| ==> IsLooplessRw(e, visited, g, cs[i])
  {
    if n: nat :| LooplessRw(e, n, visited, g, Union(cs)) {
      assert forall i :: 0 <= i < |cs| ==> LooplessRw(e, n, visited, g, cs[i]);
    }
    if n: nat :| LooplessRw(e, n, visited, g, Intersection(cs)) {
      assert forall i :: 0 <= i < |cs| ==> LooplessRw(e, n, visited, g, cs[i]);
    }
  }

  /** An answer that decides the goals outright meets their claim: what is due is true. */
  lemma DecidedMeets(e: Env, visited: set<Goal>, goals: set<Goal>, o: Outcome)
    requires o.Answer? ==> !o.cycle
    requires o.Allowed() ==> exists k :: k in goals && IsTrue(e, k)
    requires o.Answer? && !o.allowed ==> forall k :: k in goals ==> IsFalse(e, k)
    ensures Meets(o, SomeClaim(e, visited, goals))
  {
    if o.Answer? && !o.allowed && DueSome(e, visited, goals) {
      var k :| k in goals && Due(e, visited, k);
      TrueIsNotFalse(e, k);
    }
  }
}
