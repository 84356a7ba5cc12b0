/** What a tuple means, independently of how it is resolved.

    `Holds` and `Fails` are two inductive predicates indexed by the height of the derivation.
    A goal fails when it belongs to a set of goals none of which has support outside the set:
    this makes a purely circular membership false, needs no stratification of exclusions, and
    leaves goals that depend on themselves through an exclusion undecided. */
module Semantics {
  import opened Model

  ghost predicate Holds(e: Env, n: nat, g: Goal)
    decreases n, 0
  {
    && n > 0
    && (SelfDefining(g) ||
        (Defined(e, g.obj.typ, g.relation) && HasPath(e, g) &&
         HoldsRw(e, n - 1, g, RewriteOf(e, g.obj.typ, g.relation))))
  }

  ghost predicate HoldsRw(e: Env, n: nat, g: Goal, rw: Rewrite)
    decreases n, 3, rw
  {
    match rw
    case This => Direct(e, g) || AnyHolds(e, n, AllUsersets(e, g))
    case Computed(r) => Holds(e, n, Goal(g.obj, r, g.user))
    case TupleToUserset(ts, c) => AnyHolds(e, n, TtuGoals(e, g, ts, c))
    case Union(cs) => exists i :: 0 <= i < |cs| && HoldsRw(e, n, g, cs[i])
    case Intersection(cs) => |cs| >= 2 && forall i :: 0 <= i < |cs| ==> HoldsRw(e, n, g, cs[i])
    case Difference(b, s) => HoldsRw(e, n, g, b) && FailsRw(e, n, iset{}, g, s)
  }

  ghost predicate AnyHolds(e: Env, n: nat, goals: set<Goal>)
    decreases n, 2
  {
    exists k :: k in goals && Holds(e, n, k)
  }

  ghost predicate Fails(e: Env, n: nat, g: Goal)
    decreases n, 0
  {
    n > 0 && exists u: iset<Goal> :: g in u && Unfounded(e, n - 1, u)
  }

  /** Every goal of `u` fails as soon as all the goals of `u` do. */
  ghost predicate Unfounded(e: Env, n: nat, u: iset<Goal>)
    decreases n, 5
  {
    forall g :: g in u ==> Unsupported(e, n, u, g)
  }

  ghost predicate Unsupported(e: Env, n: nat, u: iset<Goal>, g: Goal)
    decreases n, 4
  {
    && !SelfDefining(g)
    && Defined(e, g.obj.typ, g.relation)
    && (HasPath(e, g) ==> FailsRw(e, n, u, g, RewriteOf(e, g.obj.typ, g.relation)))
  }

  /** The rewrite is false for `g`, taking the goals of `u` for false. */
  ghost predicate FailsRw(e: Env, n: nat, u: iset<Goal>, g: Goal, rw: Rewrite)
    decreases n, 3, rw
  {
    match rw
    case This => !Direct(e, g) && AllFail(e, n, u, AllUsersets(e, g))
    case Computed(r) => FailsIn(e, n, u, Goal(g.obj, r, g.user))
    case TupleToUserset(ts, c) => AllFail(e, n, u, TtuGoals(e, g, ts, c))
    case Union(cs) => forall i :: 0 <= i < |cs| ==> FailsRw(e, n, u, g, cs[i])
    case Intersection(cs) => exists i :: 0 <= i < |cs| && FailsRw(e, n, u, g, cs[i])
    case Difference(b, s) => FailsRw(e, n, u, g, b) || HoldsRw(e, n, g, s)
  }

  ghost predicate AllFail(e: Env, n: nat, u: iset<Goal>, goals: set<Goal>)
    decreases n, 2
  {
    forall k :: k in goals ==> FailsIn(e, n, u, k)
  }

  ghost predicate FailsIn(e: Env, n: nat, u: iset<Goal>, g: Goal)
    decreases n, 1
  {
    g in u || Fails(e, n, g)
  }

  function AllUsersets(e: Env, g: Goal): set<Goal> {
    UsersetGoals(e, g, Restrictions(e, g.obj.typ, g.relation))
  }

  /** The verdicts that do not depend on a height. */
  ghost predicate IsTrue(e: Env, g: Goal) { exists n: nat :: Holds(e, n, g) }

  ghost predicate IsFalse(e: Env, g: Goal) { exists n: nat :: Fails(e, n, g) }

  ghost predicate IsTrueRw(e: Env, g: Goal, rw: Rewrite) { exists n: nat :: HoldsRw(e, n, g, rw) }

  ghost predicate IsFalseRw(e: Env, g: Goal, rw: Rewrite) { exists n: nat :: FailsRw(e, n, iset{}, g, rw) }

  // ----- the two verdicts exclude each other

  /** No goal both holds and fails, whatever the exclusions and cycles of the model. */
  lemma {:induction false} Exclusive(e: Env, m: nat, n: nat, g: Goal)
    requires Holds(e, m, g)
    ensures !Fails(e, n, g)
    decreases m + n, 1
  {
    if Fails(e, n, g) {
      var u :| g in u && Unfounded(e, n - 1, u);
      UnfoundedNeverHolds(e, m, n - 1, u, g);
    }
  }

  lemma {:induction false} UnfoundedNeverHolds(e: Env, m: nat, n: nat, u: iset<Goal>, g: Goal)
    requires Unfounded(e, n, u) && g in u
    ensures !Holds(e, m, g)
    decreases m + n, 0
  {
    assert Unsupported(e, n, u, g);
    if Holds(e, m, g) {
      ExclusiveRw(e, m - 1, n, u, g, RewriteOf(e, g.obj.typ, g.relation));
    }
  }

  lemma {:induction false} ExclusiveRw(e: Env, m: nat, n: nat, u: iset<Goal>, g: Goal, rw: Rewrite)
    requires Unfounded(e, n, u)
    requires HoldsRw(e, m, g, rw)
    ensures !FailsRw(e, n, u, g, rw)
    decreases m + n, 3, rw
  {
    if FailsRw(e, n, u, g, rw) {
      match rw
      case This =>
        var k :| k in AllUsersets(e, g) && Holds(e, m, k);
        ExclusiveIn(e, m, n, u, k);
      case Computed(r) =>
        ExclusiveIn(e, m, n, u, Goal(g.obj, r, g.user));
      case TupleToUserset(ts, c) =>
        var k :| k in TtuGoals(e, g, ts, c) && Holds(e, m, k);
        ExclusiveIn(e, m, n, u, k);
      case Union(cs) =>
        var i :| 0 <= i < |cs| && HoldsRw(e, m, g, cs[i]);
        ExclusiveRw(e, m, n, u, g, cs[i]);
      case Intersection(cs) =>
        var i :| 0 <= i < |cs| && FailsRw(e, n, u, g, cs[i]);
        ExclusiveRw(e, m, n, u, g, cs[i]);
      case Difference(b, s) =>
        if FailsRw(e, n, u, g, b) {
          ExclusiveRw(e, m, n, u, g, b);
        } else {
          ExclusiveRw(e, n, m, iset{}, g, s);
        }
    }
  }

  lemma {:induction false} ExclusiveIn(e: Env, m: nat, n: nat, u: iset<Goal>, k: Goal)
    requires Unfounded(e, n, u)
    requires Holds(e, m, k)
    ensures !FailsIn(e, n, u, k)
    decreases m + n, 2
  {
    if k in u {
      UnfoundedNeverHolds(e, m, n, u, k);
    } else {
      Exclusive(e, m, n, k);
    }
  }

  // ----- a larger height, or a larger unfounded set, proves at least as much

  lemma {:induction false} HoldsMono(e: Env, n: nat, n': nat, g: Goal)
    requires n <= n'
    requires Holds(e, n, g)
    ensures Holds(e, n', g)
    decreases n, 1
  {
    if !SelfDefining(g) {
      HoldsRwMono(e, n - 1, n' - 1, g, RewriteOf(e, g.obj.typ, g.relation));
    }
  }

  lemma {:induction false} HoldsRwMono(e: Env, n: nat, n': nat, g: Goal, rw: Rewrite)
    requires n <= n'
    requires HoldsRw(e, n, g, rw)
    ensures HoldsRw(e, n', g, rw)
    decreases n, 2, rw
  {
    match rw
    case This =>
      if !Direct(e, g) {
        var k :| k in AllUsersets(e, g) && Holds(e, n, k);
        HoldsMono(e, n, n', k);
      }
    case Computed(r) => HoldsMono(e, n, n', Goal(g.obj, r, g.user));
    case TupleToUserset(ts, c) =>
      var k :| k in TtuGoals(e, g, ts, c) && Holds(e, n, k);
      HoldsMono(e, n, n', k);
    case Union(cs) =>
      var i :| 0 <= i < |cs| && HoldsRw(e, n, g, cs[i]);
      HoldsRwMono(e, n, n', g, cs[i]);
    case Intersection(cs) =>
      forall i | 0 <= i < |cs| ensures HoldsRw(e, n', g, cs[i]) {
        HoldsRwMono(e, n, n', g, cs[i]);
      }
    case Difference(b, s) =>
      HoldsRwMono(e, n, n', g, b);
      FailsRwMono(e, n, n', iset{}, iset{}, g, s);
  }

  lemma {:induction false} FailsMono(e: Env, n: nat, n': nat, g: Goal)
    requires n <= n'
    requires Fails(e, n, g)
    ensures Fails(e, n', g)
    decreases n, 0
  {
    var u :| g in u && Unfounded(e, n - 1, u);
    forall k | k in u ensures Unsupported(e, n' - 1, u, k) {
      assert Unsupported(e, n - 1, u, k);
      if HasPath(e, k) {
        FailsRwMono(e, n - 1, n' - 1, u, u, k, RewriteOf(e, k.obj.typ, k.relation));
      }
    }
    assert Unfounded(e, n' - 1, u);
  }

  lemma {:induction false} FailsRwMono(e: Env, n: nat, n': nat, u: iset<Goal>, u': iset<Goal>, g: Goal, rw: Rewrite)
    requires n <= n' && u <= u'
    requires FailsRw(e, n, u, g, rw)
    ensures FailsRw(e, n', u', g, rw)
    decreases n, 2, rw
  {
    match rw
    case This =>
      forall k | k in AllUsersets(e, g) ensures FailsIn(e, n', u', k) {
        FailsInMono(e, n, n', u, u', k);
      }
    case Computed(r) => FailsInMono(e, n, n', u, u', Goal(g.obj, r, g.user));
    case TupleToUserset(ts, c) =>
      forall k | k in TtuGoals(e, g, ts, c) ensures FailsIn(e, n', u', k) {
        FailsInMono(e, n, n', u, u', k);
      }
    case Union(cs) =>
      forall i | 0 <= i < |cs| ensures FailsRw(e, n', u', g, cs[i]) {
        FailsRwMono(e, n, n', u, u', g, cs[i]);
      }
    case Intersection(cs) =>
      var i :| 0 <= i < |cs| && FailsRw(e, n, u, g, cs[i]);
      FailsRwMono(e, n, n', u, u', g, cs[i]);
    case Difference(b, s) =>
      if FailsRw(e, n, u, g, b) {
        FailsRwMono(e, n, n', u, u', g, b);
      } else {
        HoldsRwMono(e, n, n', g, s);
      }
  }

  lemma {:induction false} FailsInMono(e: Env, n: nat, n': nat, u: iset<Goal>, u': iset<Goal>, k: Goal)
    requires n <= n' && u <= u'
    requires FailsIn(e, n, u, k)
    ensures FailsIn(e, n', u', k)
    decreases n, 1
  {
    if k !in u {
      FailsMono(e, n, n', k);
    }
  }

  /** Dropping the unfounded set is allowed once its goals are known to fail outright. */
  lemma {:induction false} FailsRwDischarge(e: Env, n: nat, u: iset<Goal>, g: Goal, rw: Rewrite)
    requires Unfounded(e, n, u)
    requires FailsRw(e, n, u, g, rw)
    ensures FailsRw(e, n + 1, iset{}, g, rw)
    decreases rw
  {
    match rw
    case This =>
      forall k | k in AllUsersets(e, g) ensures FailsIn(e, n + 1, iset{}, k) {
        FailsInDischarge(e, n, u, k);
      }
    case Computed(r) => FailsInDischarge(e, n, u, Goal(g.obj, r, g.user));
    case TupleToUserset(ts, c) =>
      forall k | k in TtuGoals(e, g, ts, c) ensures FailsIn(e, n + 1, iset{}, k) {
        FailsInDischarge(e, n, u, k);
      }
    case Union(cs) =>
      forall i | 0 <= i < |cs| ensures FailsRw(e, n + 1, iset{}, g, cs[i]) {
        FailsRwDischarge(e, n, u, g, cs[i]);
      }
    case Intersection(cs) =>
      var i :| 0 <= i < |cs| && FailsRw(e, n, u, g, cs[i]);
      FailsRwDischarge(e, n, u, g, cs[i]);
    case Difference(b, s) =>
      if FailsRw(e, n, u, g, b) {
        FailsRwDischarge(e, n, u, g, b);
      } else {
        HoldsRwMono(e, n, n + 1, g, s);
      }
  }

  lemma {:induction false} FailsInDischarge(e: Env, n: nat, u: iset<Goal>, k: Goal)
    requires Unfounded(e, n, u)
    requires FailsIn(e, n, u, k)
    ensures FailsIn(e, n + 1, iset{}, k)
  {
    if k !in u {
      FailsMono(e, n, n + 1, k);
    }
  }

  // ----- from verdicts without heights to one common height

  lemma {:induction false} CommonFails(e: Env, goals: set<Goal>) returns (n: nat)
    requires forall k :: k in goals ==> IsFalse(e, k)
    ensures forall k :: k in goals ==> Fails(e, n, k)
  {
    if goals == {} {
      n := 0;
    } else {
      var k :| k in goals;
      var a: nat :| Fails(e, a, k);
      var b := CommonFails(e, goals - {k});
      n := a + b;
      forall j | j in goals ensures Fails(e, n, j) {
        FailsMono(e, if j == k then a else b, n, j);
      }
    }
  }

  lemma {:induction false} CommonFailsRw(e: Env, g: Goal, cs: seq<Rewrite>) returns (n: nat)
    requires forall i :: 0 <= i < |cs| ==> IsFalseRw(e, g, cs[i])
    ensures forall i :: 0 <= i < |cs| ==> FailsRw(e, n, iset{}, g, cs[i])
  {
    if cs == [] {
      n := 0;
    } else {
      var last := |cs| - 1;
      var a: nat :| FailsRw(e, a, iset{}, g, cs[last]);
      var b := CommonFailsRw(e, g, cs[..last]);
      n := a + b;
      forall i | 0 <= i < |cs| ensures FailsRw(e, n, iset{}, g, cs[i]) {
        FailsRwMono(e, if i == last then a else b, n, iset{}, iset{}, g, cs[i]);
      }
    }
  }

  lemma {:induction false} CommonHoldsRw(e: Env, g: Goal, cs: seq<Rewrite>) returns (n: nat)
    requires forall i :: 0 <= i < |cs| ==> IsTrueRw(e, g, cs[i])
    ensures forall i :: 0 <= i < |cs| ==> HoldsRw(e, n, g, cs[i])
  {
    if cs == [] {
      n := 0;
    } else {
      var last := |cs| - 1;
      var a: nat :| HoldsRw(e, a, g, cs[last]);
      var b := CommonHoldsRw(e, g, cs[..last]);
      n := a + b;
      forall i | 0 <= i < |cs| ensures HoldsRw(e, n, g, cs[i]) {
        HoldsRwMono(e, if i == last then a else b, n, g, cs[i]);
      }
    }
  }

  /** A goal is true (false) as soon as its rewrite is. */
  lemma {:induction false} GoalTrue(e: Env, g: Goal)
    requires Defined(e, g.obj.typ, g.relation) && HasPath(e, g)
    requires IsTrueRw(e, g, RewriteOf(e, g.obj.typ, g.relation))
    ensures IsTrue(e, g)
  {
    var n: nat :| HoldsRw(e, n, g, RewriteOf(e, g.obj.typ, g.relation));
    assert Holds(e, n + 1, g);
  }

  lemma {:induction false} GoalFalse(e: Env, g: Goal)
    requires !SelfDefining(g) && Defined(e, g.obj.typ, g.relation)
    requires HasPath(e, g) ==> IsFalseRw(e, g, RewriteOf(e, g.obj.typ, g.relation))
    ensures IsFalse(e, g)
  {
    var n: nat := 0;
    if HasPath(e, g) {
      n :| FailsRw(e, n, iset{}, g, RewriteOf(e, g.obj.typ, g.relation));
      FailsRwMono(e, n, n, iset{}, iset{g}, g, RewriteOf(e, g.obj.typ, g.relation));
    }
    assert Unsupported(e, n, iset{g}, g);
    assert Unfounded(e, n, iset{g});
    assert Fails(e, n + 1, g);
  }

  /** The height-free form of exclusivity. */
  lemma TrueIsNotFalse(e: Env, g: Goal)
    requires IsTrue(e, g)
    ensures !IsFalse(e, g)
  {
    var m: nat :| Holds(e, m, g);
    forall n: nat ensures !Fails(e, n, g) { Exclusive(e, m, n, g); }
  }

  lemma TrueRwIsNotFalseRw(e: Env, g: Goal, rw: Rewrite)
    requires IsTrueRw(e, g, rw)
    ensures !IsFalseRw(e, g, rw)
  {
    var m: nat :| HoldsRw(e, m, g, rw);
    forall n: nat ensures !FailsRw(e, n, iset{}, g, rw) {
      assert Unfounded(e, n, iset{});
      ExclusiveRw(e, m, n, iset{}, g, rw);
    }
  }

  // ----- verdicts of the set operators, without heights

  lemma UnionMeaning(e: Env, g: Goal, cs: seq<Rewrite>)
    ensures IsTrueRw(e, g, Union(cs)) <==> exists i :: 0 <= i < |cs| && IsTrueRw(e, g, cs[i])
    ensures IsFalseRw(e, g, Union(cs)) <==> forall i :: 0 <= i < |cs| ==> IsFalseRw(e, g, cs[i])
  {
    if i :| 0 <= i < |cs| && IsTrueRw(e, g, cs[i]) {
      var n: nat :| HoldsRw(e, n, g, cs[i]);
      assert HoldsRw(e, n, g, Union(cs));
    }
    if n: nat :| HoldsRw(e, n, g, Union(cs)) {
      var i :| 0 <= i < |cs| && HoldsRw(e, n, g, cs[i]);
    }
    if forall i :: 0 <= i < |cs| ==> IsFalseRw(e, g, cs[i]) {
      var n := CommonFailsRw(e, g, cs);
      assert FailsRw(e, n, iset{}, g, Union(cs));
    }
    if n: nat :| FailsRw(e, n, iset{}, g, Union(cs)) {
      assert forall i :: 0 <= i < |cs| ==> FailsRw(e, n, iset{}, g, cs[i]);
    }
  }

  lemma IntersectionMeaning(e: Env, g: Goal, cs: seq<Rewrite>)
    ensures IsTrueRw(e, g, Intersection(cs)) <==> |cs| >= 2 && forall i :: 0 <= i < |cs| ==> IsTrueRw(e, g, cs[i])
    ensures IsFalseRw(e, g, Intersection(cs)) <==> exists i :: 0 <= i < |cs| && IsFalseRw(e, g, cs[i])
  {
    if |cs| >= 2 && forall i :: 0 <= i < |cs| ==> IsTrueRw(e, g, cs[i]) {
      var n := CommonHoldsRw(e, g, cs);
      assert HoldsRw(e, n, g, Intersection(cs));
    }
    if n: nat :| HoldsRw(e, n, g, Intersection(cs)) {
      assert forall i :: 0 <= i < |cs| ==> HoldsRw(e, n, g, cs[i]);
    }
    if i :| 0 <= i < |cs| && IsFalseRw(e, g, cs[i]) {
      var n: nat :| FailsRw(e, n, iset{}, g, cs[i]);
      assert FailsRw(e, n, iset{}, g, Intersection(cs));
    }
    if n: nat :| FailsRw(e, n, iset{}, g, Intersection(cs)) {
      var i :| 0 <= i < |cs| && FailsRw(e, n, iset{}, g, cs[i]);
    }
  }

  lemma DifferenceMeaning(e: Env, g: Goal, b: Rewrite, s: Rewrite)
    ensures IsTrueRw(e, g, Difference(b, s)) <==> IsTrueRw(e, g, b) && IsFalseRw(e, g, s)
    ensures IsFalseRw(e, g, Difference(b, s)) <==> IsFalseRw(e, g, b) || IsTrueRw(e, g, s)
  {
    if IsTrueRw(e, g, b) && IsFalseRw(e, g, s) {
      var m: nat :| HoldsRw(e, m, g, b);
      var n: nat :| FailsRw(e, n, iset{}, g, s);
      HoldsRwMono(e, m, m + n, g, b);
      FailsRwMono(e, n, m + n, iset{}, iset{}, g, s);
      assert HoldsRw(e, m + n, g, Difference(b, s));
    }
    if n: nat :| HoldsRw(e, n, g, Difference(b, s)) {
      assert HoldsRw(e, n, g, b) && FailsRw(e, n, iset{}, g, s);
    }
    if IsFalseRw(e, g, b) {
      var n: nat :| FailsRw(e, n, iset{}, g, b);
      assert FailsRw(e, n, iset{}, g, Difference(b, s));
    } else if IsTrueRw(e, g, s) {
      var n: nat :| HoldsRw(e, n, g, s);
      assert FailsRw(e, n, iset{}, g, Difference(b, s));
    }
    if n: nat :| FailsRw(e, n, iset{}, g, Difference(b, s)) {
      assert FailsRw(e, n, iset{}, g, b) || HoldsRw(e, n, g, s);
    }
  }

  // ----- what the verdicts say of the stored tuples and of the model

  /** A goal is true if and only if it is its own userset, or a path leads to it and its rewrite is
      true. */
  lemma GoalMeaning(e: Env, g: Goal)
    ensures IsTrue(e, g) <==>
              || g.user == Userset(g.obj, g.relation)
              || ((g.obj.typ, g.relation) in e.relations && (RefOf(g.user), g.obj.typ, g.relation) in e.paths &&
                  IsTrueRw(e, g, e.relations[(g.obj.typ, g.relation)].rewrite))
  {
    if g.user == Userset(g.obj, g.relation) {
      assert Holds(e, 1, g);
    } else if IsTrue(e, g) {
      var n: nat :| Holds(e, n, g);
      assert HoldsRw(e, n - 1, g, RewriteOf(e, g.obj.typ, g.relation));
    } else if Defined(e, g.obj.typ, g.relation) && HasPath(e, g) &&
        IsTrueRw(e, g, RewriteOf(e, g.obj.typ, g.relation)) {
      GoalTrue(e, g);
    }
  }

  /** The rewrite of a false goal is false by itself: the circle of goals through which it fails can be
      discharged. */
  lemma {:induction false} FalseGoal(e: Env, n: nat, g: Goal)
    requires Fails(e, n, g)
    ensures g.user != Userset(g.obj, g.relation) && (g.obj.typ, g.relation) in e.relations
    ensures (RefOf(g.user), g.obj.typ, g.relation) in e.paths ==>
              FailsRw(e, n, iset{}, g, e.relations[(g.obj.typ, g.relation)].rewrite)
  {
    var u :| g in u && Unfounded(e, n - 1, u);
    assert Unsupported(e, n - 1, u, g);
    if HasPath(e, g) {
      FailsRwDischarge(e, n - 1, u, g, RewriteOf(e, g.obj.typ, g.relation));
    }
  }

  /** A goal is false if and only if it is not its own userset, and no path leads to it or its rewrite is false. */
  lemma FalseGoalMeaning(e: Env, g: Goal)
    ensures IsFalse(e, g) <==>
              && g.user != Userset(g.obj, g.relation) && (g.obj.typ, g.relation) in e.relations
              && ((RefOf(g.user), g.obj.typ, g.relation) in e.paths ==>
                    IsFalseRw(e, g, e.relations[(g.obj.typ, g.relation)].rewrite))
  {
    if n: nat :| Fails(e, n, g) {
      FalseGoal(e, n, g);
    } else if !SelfDefining(g) && Defined(e, g.obj.typ, g.relation) &&
        (HasPath(e, g) ==> IsFalseRw(e, g, RewriteOf(e, g.obj.typ, g.relation))) {
      GoalFalse(e, g);
    }
  }

  /** Without a set of goals taken for false, a goal fails only on its own. */
  lemma FailsAlone(e: Env, n: nat, k: Goal)
    requires FailsIn(e, n, iset{}, k)
    ensures IsFalse(e, k)
  {
    assert Fails(e, n, k);
  }

  /** A computed relation means what the relation means on the same object. */
  lemma ComputedMeaning(e: Env, g: Goal, c: RelationName)
    ensures IsTrueRw(e, g, Computed(c)) <==> IsTrue(e, Goal(g.obj, c, g.user))
    ensures IsFalseRw(e, g, Computed(c)) <==> IsFalse(e, Goal(g.obj, c, g.user))
  {
    var k := Goal(g.obj, c, g.user);
    if n: nat :| Holds(e, n, k) { assert HoldsRw(e, n, g, Computed(c)); }
    if n: nat :| HoldsRw(e, n, g, Computed(c)) { assert Holds(e, n, k); }
    if n: nat :| Fails(e, n, k) { assert FailsRw(e, n, iset{}, g, Computed(c)); }
    if n: nat :| FailsRw(e, n, iset{}, g, Computed(c)) { FailsAlone(e, n, k); }
  }

  /** A tuple-to-userset is true if and only if the user has the computed relation on some object that a
      tuple of the tupleset names and whose type defines that relation; it is false if and only if the user
      is denied it on all of these. */
  lemma TupleToUsersetMeaning(e: Env, g: Goal, ts: RelationName, c: RelationName)
    ensures IsTrueRw(e, g, TupleToUserset(ts, c)) <==>
            exists p: Object ::
              Tuple(g.obj, ts, User(p)) in e.tuples && (p.typ, c) in e.relations && IsTrue(e, Goal(p, c, g.user))
    ensures IsFalseRw(e, g, TupleToUserset(ts, c)) <==>
            forall p: Object ::
              Tuple(g.obj, ts, User(p)) in e.tuples && (p.typ, c) in e.relations ==> IsFalse(e, Goal(p, c, g.user))
  {
    var rw, goals := TupleToUserset(ts, c), TtuGoals(e, g, ts, c);
    forall p: Object | Tuple(g.obj, ts, User(p)) in e.tuples && (p.typ, c) in e.relations
      ensures Goal(p, c, g.user) in goals
    {
      assert Tuple(g.obj, ts, User(p)).subject.User?;
    }
    if n: nat :| HoldsRw(e, n, g, rw) {
      assert AnyHolds(e, n, goals);
      var k :| k in goals && Holds(e, n, k);
      var t :| t in e.tuples && t.obj == g.obj && t.relation == ts && t.subject.User? &&
               k == Goal(t.subject.obj, c, g.user);
      assert t == Tuple(g.obj, ts, User(k.obj));
    }
    if p: Object :|
        Tuple(g.obj, ts, User(p)) in e.tuples && (p.typ, c) in e.relations && IsTrue(e, Goal(p, c, g.user)) {
      var n: nat :| Holds(e, n, Goal(p, c, g.user));
      assert HoldsRw(e, n, g, rw);
    }
    if n: nat :| FailsRw(e, n, iset{}, g, rw) {
      assert AllFail(e, n, iset{}, goals);
      forall p: Object | Tuple(g.obj, ts, User(p)) in e.tuples && (p.typ, c) in e.relations
        ensures IsFalse(e, Goal(p, c, g.user))
      {
        FailsAlone(e, n, Goal(p, c, g.user));
      }
    }
    if forall p: Object ::
        Tuple(g.obj, ts, User(p)) in e.tuples && (p.typ, c) in e.relations ==> IsFalse(e, Goal(p, c, g.user)) {
      forall k | k in goals ensures IsFalse(e, k) {
        assert Tuple(g.obj, ts, User(k.obj)) in e.tuples && k == Goal(k.obj, c, g.user);
      }
      var n := CommonFails(e, goals);
      assert FailsRw(e, n, iset{}, g, rw);
    }
  }

  /** A tuple relates the object to the user by name, or to all users of the user's type. */
  ghost predicate NamesUser(e: Env, g: Goal) {
    || Tuple(g.obj, g.relation, g.user) in e.tuples
    || (g.user.User? && Tuple(g.obj, g.relation, Wildcard(g.user.obj.typ)) in e.tuples)
  }

  /** A direct relation is true if and only if a tuple names the user or the wildcard, or a userset of which the
      user is a member; it is false if and only if no tuple does the former and the user is denied membership
      in all usersets that tuples name. */
  lemma DirectMeaning(e: Env, g: Goal)
    requires ValidTuples(e)
    ensures IsTrueRw(e, g, This) <==>
              || NamesUser(e, g)
              || exists o: Object, r: RelationName ::
                   Tuple(g.obj, g.relation, Userset(o, r)) in e.tuples && IsTrue(e, Goal(o, r, g.user))
    ensures IsFalseRw(e, g, This) <==>
              && !NamesUser(e, g)
              && forall o: Object, r: RelationName ::
                   Tuple(g.obj, g.relation, Userset(o, r)) in e.tuples ==> IsFalse(e, Goal(o, r, g.user))
  {
    var goals := AllUsersets(e, g);
    forall o: Object, r: RelationName
      ensures Tuple(g.obj, g.relation, Userset(o, r)) in e.tuples <==> Goal(o, r, g.user) in goals
    {
      UsersetIsGoal(e, g, o, r);
    }
    if n: nat :| HoldsRw(e, n, g, This) {
      if !Direct(e, g) {
        assert AnyHolds(e, n, goals);
        var k :| k in goals && Holds(e, n, k);
        assert k == Goal(k.obj, k.relation, g.user);
      }
    }
    if NamesUser(e, g) {
      assert HoldsRw(e, 0, g, This);
    } else if o: Object, r: RelationName :|
        Tuple(g.obj, g.relation, Userset(o, r)) in e.tuples && IsTrue(e, Goal(o, r, g.user)) {
      var n: nat :| Holds(e, n, Goal(o, r, g.user));
      assert HoldsRw(e, n, g, This);
    }
    if n: nat :| FailsRw(e, n, iset{}, g, This) {
      assert AllFail(e, n, iset{}, goals);
      forall o: Object, r: RelationName | Tuple(g.obj, g.relation, Userset(o, r)) in e.tuples
        ensures IsFalse(e, Goal(o, r, g.user))
      {
        FailsAlone(e, n, Goal(o, r, g.user));
      }
    }
    if !NamesUser(e, g) && forall o: Object, r: RelationName ::
        Tuple(g.obj, g.relation, Userset(o, r)) in e.tuples ==> IsFalse(e, Goal(o, r, g.user)) {
      forall k | k in goals ensures IsFalse(e, k) {
        assert k == Goal(k.obj, k.relation, g.user);
      }
      var n := CommonFails(e, goals);
      assert FailsRw(e, n, iset{}, g, This);
    }
  }

  lemma UsersetIsGoal(e: Env, g: Goal, o: Object, r: RelationName)
    requires ValidTuples(e)
    ensures Tuple(g.obj, g.relation, Userset(o, r)) in e.tuples <==> Goal(o, r, g.user) in AllUsersets(e, g)
  {
    var t := Tuple(g.obj, g.relation, Userset(o, r));
    if t in e.tuples {
      assert RefOf(t.subject) in Restrictions(e, g.obj.typ, g.relation);
    }
    if Goal(o, r, g.user) in AllUsersets(e, g) {
      var u :| u in e.tuples && u.obj == g.obj && u.relation == g.relation && u.subject.Userset? &&
               Goal(u.subject.obj, u.subject.relation, g.user) == Goal(o, r, g.user);
      assert u == t;
    }
  }
}
