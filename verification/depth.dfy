/** How much depth the answer to a request takes. */
module Depth {
  import opened Model
  import opened Semantics
  import opened Recursive
  import opened Handlers

  /** The relations of the object that the path has not met. */
  function Unmet(e: Env, visited: set<Goal>, obj: Object, user: Subject): set<(TypeName, RelationName)> {
    set k | k in e.relations && k.0 == obj.typ && Goal(obj, k.1, user) !in visited
  }

  /** The rewrite of the goal is looked at. */
  predicate Opens(e: Env, visited: set<Goal>, g: Goal) {
    g !in visited && !SelfDefining(g) && Defined(e, g.obj.typ, g.relation) && HasPath(e, g)
  }

  /** Fewer than `left` dispatches lie on any chain of sub-goals that starts at `g` and goes on until it meets the
      path, a computed relation being no dispatch; and the searches offered on the way end in time. */
  ghost predicate Shallow(w: World, left: nat, visited: set<Goal>, g: Goal)
    decreases left, Unmet(w.env, visited, g.obj, g.user), 0
  {
    && left > 0
    && (g in visited || SelfDefining(g) || Defined(w.env, g.obj.typ, g.relation))
    && (Opens(w.env, visited, g) ==> (
          MeetsOne(w.env, visited, g);
          ShallowRw(w, left, visited + {g}, g, RewriteOf(w.env, g.obj.typ, g.relation))))
  }

  ghost predicate ShallowRw(w: World, left: nat, visited: set<Goal>, g: Goal, rw: Rewrite)
    requires left > 0
    decreases left, Unmet(w.env, visited, g.obj, g.user), 1, rw
  {
    match rw
    case This =>
      && UsersetSearchEnds(w, left, g)
      && forall k :: k in AllUsersets(w.env, g) ==> Shallow(w, left - 1, visited, k)
    case Computed(c) => Shallow(w, left, visited, Goal(g.obj, c, g.user))
    case TupleToUserset(ts, c) =>
      && TtuSearchEnds(w, left, g, ts, c)
      && forall k :: k in TtuGoals(w.env, g, ts, c) ==> Shallow(w, left - 1, visited, k)
    case Union(cs) => forall i :: 0 <= i < |cs| ==> ShallowRw(w, left, visited, g, cs[i])
    case Intersection(cs) => |cs| >= 2 && forall i :: 0 <= i < |cs| ==> ShallowRw(w, left, visited, g, cs[i])
    case Difference(b, s) => ShallowRw(w, left, visited, g, b) && ShallowRw(w, left, visited, g, s)
  }

  /** The recursive strategy is not offered for the userset tuples of the goal, or ends with the depth that is left. */
  ghost predicate UsersetSearchEnds(w: World, left: nat, g: Goal) {
    !g.user.Userset? && w.types.usersetUseRecursive(g.obj.typ, g.relation, UserType(g.user)) ==>
      EndsInTime(w.env, Search(ByUserset, g.obj.typ, g.relation), left, g.obj)
  }

  ghost predicate TtuSearchEnds(w: World, left: nat, g: Goal, ts: RelationName, c: RelationName) {
    var t, rw, ut := g.obj.typ, TupleToUserset(ts, c), UserType(g.user);
    && !g.user.Userset? && w.types.ttuUseRecursive(t, g.relation, ut, rw)
    && !w.types.ttuUseWeight2(t, g.relation, ut, rw) ==>
      EndsInTime(w.env, Search(ByParent(ts), t, g.relation), left, g.obj)
  }

  lemma MeetsOne(e: Env, visited: set<Goal>, g: Goal)
    requires Opens(e, visited, g)
    ensures Unmet(e, visited + {g}, g.obj, g.user) < Unmet(e, visited, g.obj, g.user)
  {
    var k := (g.obj.typ, g.relation);
    assert k in Unmet(e, visited, g.obj, g.user) && k !in Unmet(e, visited + {g}, g.obj, g.user);
  }

  /** The handler is answered within the depth that is left for its request. */
  ghost predicate ShallowHandler(w: World, left: nat, visited: set<Goal>, g: Goal, h: Handler)
    requires left > 0
  {
    match h
    case Operand(rw) => ShallowRw(w, left, visited, g, rw)
    case DirectTuple => true
    case PublicTuple => true
    case UsersetTuples => ShallowRw(w, left, visited, g, This)
    case UsersetGroup(refs) => AllShallow(w, left - 1, visited, UsersetGoals(w.env, g, refs))
    case SubProblem(k) => Shallow(w, left - 1, visited, k)
  }

  ghost predicate AllShallow(w: World, left: nat, visited: set<Goal>, goals: set<Goal>) {
    forall k :: k in goals ==> Shallow(w, left, visited, k)
  }

  // ----- in terms of chains of sub-goals

  /** `part` is the rewrite or an operand somewhere in it. */
  ghost predicate IsPart(part: Rewrite, rw: Rewrite)
    decreases rw
  {
    part == rw ||
    match rw
    case Union(cs) => exists i :: 0 <= i < |cs| && IsPart(part, cs[i])
    case Intersection(cs) => exists i :: 0 <= i < |cs| && IsPart(part, cs[i])
    case Difference(b, s) => IsPart(part, b) || IsPart(part, s)
    case _ => false
  }

  /** The relation of `g` refers to that of `k` on the same object. */
  ghost predicate Computes(e: Env, g: Goal, k: Goal)
    requires Defined(e, g.obj.typ, g.relation)
  {
    k.obj == g.obj && k.user == g.user && IsPart(Computed(k.relation), RewriteOf(e, g.obj.typ, g.relation))
  }

  /** A tuple leads from `g` to `k`: it names the userset, or the parent. */
  ghost predicate Dispatches(e: Env, g: Goal, k: Goal)
    requires Defined(e, g.obj.typ, g.relation)
  {
    var rw := RewriteOf(e, g.obj.typ, g.relation);
    && k.user == g.user
    && (|| (IsPart(This, rw) && Tuple(g.obj, g.relation, Userset(k.obj, k.relation)) in e.tuples)
        || exists ts :: LeadsByParent(e, g, k, ts))
  }

  ghost predicate LeadsByParent(e: Env, g: Goal, k: Goal, ts: RelationName)
    requires Defined(e, g.obj.typ, g.relation)
  {
    && IsPart(TupleToUserset(ts, k.relation), RewriteOf(e, g.obj.typ, g.relation))
    && Tuple(g.obj, ts, User(k.obj)) in e.tuples && Defined(e, k.obj.typ, k.relation)
  }

  /** A chain of goals, each a sub-goal of the one before, with `n` dispatches; it does not go on from a goal that
      the path has met. */
  ghost predicate IsChain(e: Env, n: nat, visited: set<Goal>, path: seq<Goal>)
    decreases |path|
  {
    && |path| >= 1
    && if |path| == 1 then n == 0 else
       && Opens(e, visited, path[0])
       && (|| (Computes(e, path[0], path[1]) && IsChain(e, n, visited + {path[0]}, path[1..]))
           || (n > 0 && Dispatches(e, path[0], path[1]) && IsChain(e, n - 1, visited + {path[0]}, path[1..])))
  }

  /** The recursive searches offered at the goal itself end in time. */
  ghost predicate SearchesEnd(w: World, left: nat, g: Goal)
    requires Defined(w.env, g.obj.typ, g.relation)
  {
    var rw := RewriteOf(w.env, g.obj.typ, g.relation);
    && (IsPart(This, rw) ==> UsersetSearchEnds(w, left, g))
    && forall ts, c :: IsPart(TupleToUserset(ts, c), rw) ==> TtuSearchEnds(w, left, g, ts, c)
  }

  /** The last goal of the chain is reached with depth to spare, enough for the searches offered there. */
  ghost predicate ChainFits(w: World, left: nat, n: nat, visited: set<Goal>, path: seq<Goal>)
    requires |path| >= 1
  {
    var before, last := path[..|path| - 1], path[|path| - 1];
    && n < left
    && (last !in before && Opens(w.env, visited, last) ==> SearchesEnd(w, left - n, last))
  }

  ghost predicate AllChainsFit(w: World, left: nat, visited: set<Goal>, g: Goal) {
    forall n: nat, path :: IsChain(w.env, n, visited, path) && path[0] == g ==> ChainFits(w, left, n, visited, path)
  }

  /** In a well-typed model a goal is shallow if and only if every chain of sub-goals that starts with it has fewer
      dispatches than the depth that is left, and reaches every offered search with enough of it. */
  lemma ShallowIffChainsFit(w: World, left: nat, visited: set<Goal>, g: Goal)
    requires ValidTuples(w.env) && TypedModel(w.env) && Defined(w.env, g.obj.typ, g.relation)
    ensures Shallow(w, left, visited, g) <==> AllChainsFit(w, left, visited, g)
  {
    if Shallow(w, left, visited, g) {
      forall n: nat, path | IsChain(w.env, n, visited, path) && path[0] == g
        ensures ChainFits(w, left, n, visited, path)
      {
        ChainsOfShallow(w, left, n, visited, path);
      }
    }
    if AllChainsFit(w, left, visited, g) {
      FittingIsShallow(w, left, visited, g);
    }
  }

  lemma {:induction false} ShallowPart(w: World, left: nat, visited: set<Goal>, g: Goal, rw: Rewrite, part: Rewrite)
    requires left > 0 && ShallowRw(w, left, visited, g, rw) && IsPart(part, rw)
    ensures ShallowRw(w, left, visited, g, part)
    decreases rw
  {
    if part != rw {
      match rw
      case Union(cs) =>
        var i :| 0 <= i < |cs| && IsPart(part, cs[i]);
        ShallowPart(w, left, visited, g, cs[i], part);
      case Intersection(cs) =>
        var i :| 0 <= i < |cs| && IsPart(part, cs[i]);
        ShallowPart(w, left, visited, g, cs[i], part);
      case Difference(b, s) => ShallowPart(w, left, visited, g, if IsPart(part, b) then b else s, part);
    }
  }

  /** What a shallow goal says of its sub-goals and of the searches at it. */
  lemma ShallowBelow(w: World, left: nat, visited: set<Goal>, g: Goal)
    requires ValidTuples(w.env) && Shallow(w, left, visited, g) && Opens(w.env, visited, g)
    ensures SearchesEnd(w, left, g)
    ensures forall k :: Computes(w.env, g, k) ==> Shallow(w, left, visited + {g}, k)
    ensures forall k :: Dispatches(w.env, g, k) ==> Shallow(w, left - 1, visited + {g}, k)
  {
    var rw, inner := RewriteOf(w.env, g.obj.typ, g.relation), visited + {g};
    if IsPart(This, rw) {
      ShallowPart(w, left, inner, g, rw, This);
    }
    forall ts, c | IsPart(TupleToUserset(ts, c), rw) ensures TtuSearchEnds(w, left, g, ts, c) {
      ShallowPart(w, left, inner, g, rw, TupleToUserset(ts, c));
    }
    forall k | Computes(w.env, g, k) ensures Shallow(w, left, inner, k) {
      ShallowPart(w, left, inner, g, rw, Computed(k.relation));
    }
    forall k | Dispatches(w.env, g, k) ensures Shallow(w, left - 1, inner, k) {
      if ts :| LeadsByParent(w.env, g, k, ts) {
        ShallowPart(w, left, inner, g, rw, TupleToUserset(ts, k.relation));
        ParentIsGoal(w.env, g, ts, k);
      } else {
        UsersetIsGoal(w.env, g, k.obj, k.relation);
      }
    }
  }

  lemma ParentIsGoal(e: Env, g: Goal, ts: RelationName, k: Goal)
    requires k.user == g.user
    ensures k in TtuGoals(e, g, ts, k.relation) <==>
              Tuple(g.obj, ts, User(k.obj)) in e.tuples && Defined(e, k.obj.typ, k.relation)
  {
    var t := Tuple(g.obj, ts, User(k.obj));
    if k in TtuGoals(e, g, ts, k.relation) {
      var u :| u in e.tuples && u.obj == g.obj && u.relation == ts && u.subject.User? && u.subject.obj == k.obj;
      assert u == t;
    } else {
      assert t.subject.User?;
    }
  }

  lemma {:induction false} ChainsOfShallow(w: World, left: nat, n: nat, visited: set<Goal>, path: seq<Goal>)
    requires ValidTuples(w.env) && IsChain(w.env, n, visited, path) && Shallow(w, left, visited, path[0])
    ensures ChainFits(w, left, n, visited, path)
    decreases |path|
  {
    var g := path[0];
    if Opens(w.env, visited, g) {
      ShallowBelow(w, left, visited, g);
    }
    if |path| > 1 {
      var rest, inner := path[1..], visited + {g};
      if Computes(w.env, g, path[1]) && IsChain(w.env, n, inner, rest) {
        ChainsOfShallow(w, left, n, inner, rest);
        FitsFurther(w, left, n, left, n, visited, path);
      } else {
        ChainsOfShallow(w, left - 1, n - 1, inner, rest);
        FitsFurther(w, left, n, left - 1, n - 1, visited, path);
      }
    }
  }

  /** A chain fits as its rest does, which has one dispatch less and one unit of depth less, or as many of both. */
  lemma FitsFurther(w: World, left: nat, n: nat, left': nat, n': nat, visited: set<Goal>, path: seq<Goal>)
    requires |path| > 1 && left - n == left' - n'
    ensures ChainFits(w, left, n, visited, path) <==> ChainFits(w, left', n', visited + {path[0]}, path[1..])
  {
    var before, last := path[..|path| - 1], path[|path| - 1];
    var before', last' := path[1..][..|path[1..]| - 1], path[1..][|path[1..]| - 1];
    assert last == last' && before == [path[0]] + before';
  }

  lemma {:induction false} FittingIsShallow(w: World, left: nat, visited: set<Goal>, g: Goal)
    requires ValidTuples(w.env) && TypedModel(w.env) && Defined(w.env, g.obj.typ, g.relation)
    requires AllChainsFit(w, left, visited, g)
    ensures Shallow(w, left, visited, g)
    decreases left, Unmet(w.env, visited, g.obj, g.user), 0
  {
    assert IsChain(w.env, 0, visited, [g]) && ChainFits(w, left, 0, visited, [g]);
    if Opens(w.env, visited, g) {
      MeetsOne(w.env, visited, g);
      FittingBelow(w, left, visited, g);
      FittingRw(w, left, visited + {g}, g, RewriteOf(w.env, g.obj.typ, g.relation));
    }
  }

  lemma FittingBelow(w: World, left: nat, visited: set<Goal>, g: Goal)
    requires AllChainsFit(w, left, visited, g) && Opens(w.env, visited, g) && left > 0
    ensures forall k :: Computes(w.env, g, k) ==> AllChainsFit(w, left, visited + {g}, k)
    ensures forall k :: Dispatches(w.env, g, k) ==> AllChainsFit(w, left - 1, visited + {g}, k)
  {
    var inner := visited + {g};
    forall k, n: nat, path | Computes(w.env, g, k) && IsChain(w.env, n, inner, path) && path[0] == k
      ensures ChainFits(w, left, n, inner, path)
    {
      var longer := [g] + path;
      assert longer[1..] == path && IsChain(w.env, n, visited, longer);
      FitsFurther(w, left, n, left, n, visited, longer);
    }
    forall k, n: nat, path | Dispatches(w.env, g, k) && IsChain(w.env, n, inner, path) && path[0] == k
      ensures ChainFits(w, left - 1, n, inner, path)
    {
      var longer := [g] + path;
      assert longer[1..] == path && IsChain(w.env, n + 1, visited, longer);
      FitsFurther(w, left, n + 1, left - 1, n, visited, longer);
    }
  }

  lemma {:induction false} FittingRw(w: World, left: nat, visited: set<Goal>, g: Goal, rw: Rewrite)
    requires ValidTuples(w.env) && TypedModel(w.env) && Defined(w.env, g.obj.typ, g.relation) && left > 0
    requires IsPart(rw, RewriteOf(w.env, g.obj.typ, g.relation)) && Typed(w.env, g.obj.typ, rw)
    requires SearchesEnd(w, left, g)
    requires forall k :: Computes(w.env, g, k) ==> AllChainsFit(w, left, visited, k)
    requires forall k :: Dispatches(w.env, g, k) ==> AllChainsFit(w, left - 1, visited, k)
    ensures ShallowRw(w, left, visited, g, rw)
    decreases left, Unmet(w.env, visited, g.obj, g.user), 1, rw
  {
    var e, whole := w.env, RewriteOf(w.env, g.obj.typ, g.relation);
    match rw
    case This =>
      forall k | k in AllUsersets(e, g) ensures Shallow(w, left - 1, visited, k) {
        UsersetIsGoal(e, g, k.obj, k.relation);
        assert Dispatches(e, g, k);
        FittingIsShallow(w, left - 1, visited, k);
      }
    case Computed(c) =>
      var k := Goal(g.obj, c, g.user);
      assert Computes(e, g, k);
      FittingIsShallow(w, left, visited, k);
    case TupleToUserset(ts, c) =>
      forall k | k in TtuGoals(e, g, ts, c) ensures Shallow(w, left - 1, visited, k) {
        ParentIsGoal(e, g, ts, k);
        assert LeadsByParent(e, g, k, ts) && Dispatches(e, g, k);
        FittingIsShallow(w, left - 1, visited, k);
      }
    case Union(cs) =>
      forall i | 0 <= i < |cs| ensures ShallowRw(w, left, visited, g, cs[i]) {
        PartOfPart(cs[i], rw, whole);
        FittingRw(w, left, visited, g, cs[i]);
      }
    case Intersection(cs) =>
      forall i | 0 <= i < |cs| ensures ShallowRw(w, left, visited, g, cs[i]) {
        PartOfPart(cs[i], rw, whole);
        FittingRw(w, left, visited, g, cs[i]);
      }
    case Difference(b, s) =>
      PartOfPart(b, rw, whole);
      PartOfPart(s, rw, whole);
      FittingRw(w, left, visited, g, b);
      FittingRw(w, left, visited, g, s);
  }

  lemma {:induction false} PartOfPart(part: Rewrite, rw: Rewrite, whole: Rewrite)
    requires IsPart(part, rw) && IsPart(rw, whole)
    ensures IsPart(part, whole)
    decreases whole
  {
    if rw != whole {
      match whole
      case Union(cs) =>
        var i :| 0 <= i < |cs| && IsPart(rw, cs[i]);
        PartOfPart(part, rw, cs[i]);
      case Intersection(cs) =>
        var i :| 0 <= i < |cs| && IsPart(rw, cs[i]);
        PartOfPart(part, rw, cs[i]);
      case Difference(b, s) => PartOfPart(part, rw, if IsPart(rw, b) then b else s);
    }
  }

  // ----- a bound that needs no chains

  /** The goals that a path from a goal on `obj` can meet. */
  function Universe(e: Env, obj: Object, user: Subject): set<Goal> {
    set o, k | o in Named(e) + {obj} && k in e.relations && k.0 == o.typ :: Goal(o, k.1, user)
  }

  /** As many goals as the path can still meet, and as many levels as a recursive search can take. */
  function Room(e: Env, visited: set<Goal>, g: Goal): nat {
    |Universe(e, g.obj, g.user) - visited| + |Named(e)| + 2
  }

  /** Computed relations are defined and intersections have two operands. */
  predicate Typed(e: Env, t: TypeName, rw: Rewrite) {
    match rw
    case This => true
    case Computed(c) => Defined(e, t, c)
    case TupleToUserset(_, _) => true
    case Union(cs) => forall i | 0 <= i < |cs| :: Typed(e, t, cs[i])
    case Intersection(cs) => |cs| >= 2 && forall i | 0 <= i < |cs| :: Typed(e, t, cs[i])
    case Difference(b, s) => Typed(e, t, b) && Typed(e, t, s)
  }

  ghost predicate TypedModel(e: Env) {
    forall t, r :: Defined(e, t, r) ==> Typed(e, t, RewriteOf(e, t, r))
  }

  lemma AmpleBelow(e: Env, visited: set<Goal>, g: Goal)
    requires Opens(e, visited, g)
    ensures Room(e, visited + {g}, g) < Room(e, visited, g)
  {
    var all := Universe(e, g.obj, g.user);
    assert g in all by {
      var k := (g.obj.typ, g.relation);
      assert g.obj in Named(e) + {g.obj} && k in e.relations;
    }
    assert all - (visited + {g}) == all - visited - {g};
  }

  lemma AmpleChild(e: Env, visited: set<Goal>, g: Goal, k: Goal)
    requires Defined(e, g.obj.typ, g.relation) && (Computes(e, g, k) || Dispatches(e, g, k))
    ensures Room(e, visited, k) <= Room(e, visited, g)
  {
    assert k.obj == g.obj || k.obj in Named(e) by {
      if !Computes(e, g, k) {
        var t := if ts :| LeadsByParent(e, g, k, ts) then Tuple(g.obj, ts, User(k.obj))
                 else Tuple(g.obj, g.relation, Userset(k.obj, k.relation));
        assert t in e.tuples && !t.subject.Wildcard?;
      }
    }
    assert Named(e) + {k.obj} <= Named(e) + {g.obj};
    var below, here := Universe(e, k.obj, k.user) - visited, Universe(e, g.obj, g.user) - visited;
    assert below <= here;
    assert here == below + (here - below);
  }

  lemma AmpleStep(e: Env, visited: set<Goal>, g: Goal, k: Goal)
    requires Opens(e, visited, g) && (Computes(e, g, k) || Dispatches(e, g, k))
    ensures Room(e, visited + {g}, k) < Room(e, visited, g)
  {
    AmpleBelow(e, visited, g);
    AmpleChild(e, visited + {g}, g, k);
  }

  lemma AmpleSearches(w: World, left: nat, g: Goal)
    requires Defined(w.env, g.obj.typ, g.relation) && left > |Named(w.env)| + 2
    ensures SearchesEnd(w, left, g)
  {
    AmpleSearch(w.env, left, Search(ByUserset, g.obj.typ, g.relation), g.obj);
    forall ts, c ensures TtuSearchEnds(w, left, g, ts, c) {
      AmpleSearch(w.env, left, Search(ByParent(ts), g.obj.typ, g.relation), g.obj);
    }
  }

  /** Every dispatch takes the path to a goal that it has not met before, until the last one. */
  lemma {:induction false} AmpleChain(e: Env, left: nat, n: nat, visited: set<Goal>, path: seq<Goal>)
    requires IsChain(e, n, visited, path) && left > Room(e, visited, path[0])
    ensures left - n > |Named(e)| + 2
    decreases |path|
  {
    if |path| > 1 {
      var g, k, inner := path[0], path[1], visited + {path[0]};
      AmpleStep(e, visited, g, k);
      if Computes(e, g, k) && IsChain(e, n, inner, path[1..]) {
        AmpleChain(e, left, n, inner, path[1..]);
      } else {
        AmpleChain(e, left - 1, n - 1, inner, path[1..]);
      }
    }
  }

  lemma AmpleChainFits(w: World, left: nat, n: nat, visited: set<Goal>, path: seq<Goal>)
    requires IsChain(w.env, n, visited, path) && left > Room(w.env, visited, path[0])
    ensures ChainFits(w, left, n, visited, path)
  {
    AmpleChain(w.env, left, n, visited, path);
    if Opens(w.env, visited, path[|path| - 1]) {
      AmpleSearches(w, left - n, path[|path| - 1]);
    }
  }

  /** In a well-typed model the depth is enough if it exceeds the goals that the path has not met, with room for
      one recursive search. */
  lemma AmpleIsShallow(w: World, left: nat, visited: set<Goal>, g: Goal)
    requires ValidTuples(w.env) && TypedModel(w.env) && Defined(w.env, g.obj.typ, g.relation)
    requires left > Room(w.env, visited, g)
    ensures Shallow(w, left, visited, g)
  {
    forall n: nat, path: seq<Goal> | IsChain(w.env, n, visited, path) && path[0] == g
      ensures ChainFits(w, left, n, visited, path)
    {
      AmpleChainFits(w, left, n, visited, path);
    }
    assert AllChainsFit(w, left, visited, g);
    ShallowIffChainsFit(w, left, visited, g);
  }
}
