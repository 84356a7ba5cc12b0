/** What an edge that needs no further evaluation says about the target of the search (graph.go). */
module EdgeMeaning {
  import opened Model
  import opened Semantics
  import opened FastPath
  import opened FastPathMeaning
  import opened PathGuard
  import opened Edges
  import Depth

  /** What the user side of an edge has to offer for a goal on the relation the edge leads into. */
  ghost predicate Realized(e: Env, source: Ref, g: Goal, x: Edge) {
    match x.kind
    case DirectEdge => Direct(e, g)
    case ComputedUsersetEdge => source.UsersetRef? && IsTrue(e, Goal(g.obj, source.relation, g.user))
    case TupleToUsersetEdge =>
      source.UsersetRef? &&
      exists k :: k in TtuGoals(e, g, x.tupleset, source.relation) && k.obj.typ == source.typ && IsTrue(e, k)
  }

  /** An edge that is not flagged needs no further evaluation: whatever object it leads to satisfies the
      rewrite of its relation. */
  lemma {:induction false} CleanEdgeMeaning(e: Env, source: Ref, g: Goal, rw: Rewrite, x: Edge)
    requires CleanIn(e, source, NodeOf(g), rw, x) && Realized(e, source, g, x)
    ensures IsTrueRw(e, g, rw)
    decreases rw
  {
    match rw
    case This => assert HoldsRw(e, 0, g, rw);
    case Computed(c) =>
      var n: nat :| Holds(e, n, Goal(g.obj, c, g.user));
      assert HoldsRw(e, n, g, rw);
    case TupleToUserset(ts, c) =>
      TtuSource(e, source, Restrictions(e, g.obj.typ, ts), c);
      var k :| k in TtuGoals(e, g, ts, c) && k.obj.typ == source.typ && IsTrue(e, k);
      var n: nat :| Holds(e, n, k);
      assert HoldsRw(e, n, g, rw);
    case Union(cs) =>
      var i :| 0 <= i < |cs| && CleanIn(e, source, NodeOf(g), cs[i], x);
      CleanEdgeMeaning(e, source, g, cs[i], x);
      UnionMeaning(e, g, cs);
    case Intersection(_) =>
    case Difference(_, _) =>
  }

  lemma {:induction false} TtuSource(e: Env, source: Ref, refs: seq<Ref>, c: RelationName)
    requires TtuMatches(e, source, refs, c) > 0
    ensures source.UsersetRef? && source.relation == c
  {
    if !Matches(source, refs[|refs| - 1].typ, c) {
      TtuSource(e, source, refs[..|refs| - 1], c);
    }
  }

  // ----- which edges there are

  /** A relation on its own contributes the edge: the restrictions name the source or its wildcard, or the rewrite
      names the relation that is the source, on the object or on a parent. */
  ghost predicate Contributes(e: Env, source: Ref, n: Node, part: Rewrite, x: Edge) {
    match part
    case This =>
      && x == Edge(DirectEdge, n, NO_TUPLESET) && n in e.relations
      && (source in e.relations[n].restrictions || WildcardRef(source.typ) in e.relations[n].restrictions)
    case Computed(c) => x == Edge(ComputedUsersetEdge, n, NO_TUPLESET) && source == UsersetRef(n.0, c)
    case TupleToUserset(ts, c) =>
      && x == Edge(TupleToUsersetEdge, n, ts) && source == UsersetRef(source.typ, c) && (source.typ, c) in e.relations
      && (n.0, ts) in e.relations && exists q :: q in e.relations[(n.0, ts)].restrictions && q.typ == source.typ
    case _ => false
  }

  /** The full search looks at every operand at any depth, what is subtracted included. */
  lemma {:induction false} FullSearchSkipsNothing(part: Rewrite, rw: Rewrite)
    ensures IsPart(AllEdges, part, rw) <==> Depth.IsPart(part, rw)
    decreases rw
  {
    match rw
    case Union(cs) =>
      forall i | 0 <= i < |cs| ensures IsPart(AllEdges, part, cs[i]) <==> Depth.IsPart(part, cs[i]) {
        FullSearchSkipsNothing(part, cs[i]);
      }
    case Intersection(cs) =>
      forall i | 0 <= i < |cs| ensures IsPart(AllEdges, part, cs[i]) <==> Depth.IsPart(part, cs[i]) {
        FullSearchSkipsNothing(part, cs[i]);
      }
    case Difference(b, s) =>
      FullSearchSkipsNothing(part, b);
      FullSearchSkipsNothing(part, s);
    case _ =>
  }

  /** The full search finds the edges that any operand contributes, at any depth; pruning leaves out the operands of
      an intersection after the first, and what is subtracted. */
  lemma {:induction false} LocalMeaning(e: Env, source: Ref, mode: Mode, n: Node, rw: Rewrite, x: Edge)
    ensures Local(e, source, mode, n, rw, x) > 0 <==>
            exists part :: IsPart(mode, part, rw) && Contributes(e, source, n, part, x)
    decreases rw, 1
  {
    match rw
    case This => assert IsPart(mode, rw, rw);
    case Computed(_) => assert IsPart(mode, rw, rw);
    case TupleToUserset(ts, c) =>
      assert IsPart(mode, rw, rw);
      TtuMatchesMeaning(e, source, Restrictions(e, n.0, ts), c);
    case Union(cs) => LocalSumMeaning(e, source, mode, n, rw, cs, x);
    case Intersection(cs) =>
      LocalSumMeaning(e, source, mode, n, rw, cs, x);
      if cs != [] {
        LocalMeaning(e, source, mode, n, cs[0], x);
      }
    case Difference(b, s) =>
      LocalMeaning(e, source, mode, n, b, x);
      LocalMeaning(e, source, mode, n, s, x);
  }

  lemma {:induction false} LocalSumMeaning(e: Env, source: Ref, mode: Mode, n: Node, rw: Rewrite, cs: seq<Rewrite>,
                                           x: Edge)
    requires forall i :: 0 <= i < |cs| ==> cs[i] < rw
    ensures LocalSum(e, source, mode, n, cs, x) > 0 <==>
            exists i, part :: 0 <= i < |cs| && IsPart(mode, part, cs[i]) && Contributes(e, source, n, part, x)
    decreases rw, 0, |cs|
  {
    if cs != [] {
      var last := |cs| - 1;
      LocalSumMeaning(e, source, mode, n, rw, cs[..last], x);
      LocalMeaning(e, source, mode, n, cs[last], x);
      if i, part :| 0 <= i < |cs| && IsPart(mode, part, cs[i]) && Contributes(e, source, n, part, x) && i < last {
        assert IsPart(mode, part, cs[..last][i]);
      }
    }
  }

  lemma {:induction false} TtuMatchesMeaning(e: Env, source: Ref, refs: seq<Ref>, c: RelationName)
    ensures TtuMatches(e, source, refs, c) > 0 <==>
            && source == UsersetRef(source.typ, c) && (source.typ, c) in e.relations
            && exists q :: q in refs && q.typ == source.typ
  {
    if refs != [] {
      var last := |refs| - 1;
      TtuMatchesMeaning(e, source, refs[..last], c);
      assert refs == refs[..last] + [refs[last]];
    }
  }

  /** A rewrite leads on to the relation of a userset that it allows, to a computed relation on the object, or on a
      parent. */
  ghost predicate LeadsOn(e: Env, n: Node, part: Rewrite, m: Node) {
    match part
    case This => n in e.relations && UsersetRef(m.0, m.1) in e.relations[n].restrictions
    case Computed(c) => m == (n.0, c)
    case TupleToUserset(ts, c) =>
      && m.1 == c && m in e.relations && (n.0, ts) in e.relations
      && exists q :: q in e.relations[(n.0, ts)].restrictions && q.typ == m.0
    case _ => false
  }

  lemma {:induction false} NextMeaning(e: Env, mode: Mode, n: Node, rw: Rewrite, m: Node)
    ensures m in Next(e, mode, n, rw) <==> exists part :: IsPart(mode, part, rw) && LeadsOn(e, n, part, m)
    decreases rw, 1
  {
    match rw
    case This =>
      assert IsPart(mode, rw, rw);
      assert m in Next(e, mode, n, rw) <==> UsersetRef(m.0, m.1) in Restrictions(e, n.0, n.1);
    case Computed(_) => assert IsPart(mode, rw, rw);
    case TupleToUserset(ts, c) => assert IsPart(mode, rw, rw);
    case Union(cs) => NextOfAllMeaning(e, mode, n, rw, cs, m);
    case Intersection(cs) =>
      NextOfAllMeaning(e, mode, n, rw, cs, m);
      if cs != [] {
        NextMeaning(e, mode, n, cs[0], m);
      }
    case Difference(b, s) =>
      NextMeaning(e, mode, n, b, m);
      NextMeaning(e, mode, n, s, m);
  }

  lemma {:induction false} NextOfAllMeaning(e: Env, mode: Mode, n: Node, rw: Rewrite, cs: seq<Rewrite>, m: Node)
    requires forall i :: 0 <= i < |cs| ==> cs[i] < rw
    ensures m in NextOfAll(e, mode, n, cs) <==>
            exists i, part :: 0 <= i < |cs| && IsPart(mode, part, cs[i]) && LeadsOn(e, n, part, m)
    decreases rw, 0, |cs|
  {
    if cs != [] {
      var last := |cs| - 1;
      NextOfAllMeaning(e, mode, n, rw, cs[..last], m);
      NextMeaning(e, mode, n, cs[last], m);
      if i, part :| 0 <= i < |cs| && IsPart(mode, part, cs[i]) && LeadsOn(e, n, part, m) && i < last {
        assert IsPart(mode, part, cs[..last][i]);
      }
    }
  }

  // ----- along the way to the target

  /** The goal `k` is a sub-goal of `g` behind an operand outside all intersections and exclusions. */
  ghost predicate IsCleanLink(e: Env, g: Goal, rw: Rewrite, k: Goal) {
    match rw
    case This => k in AllUsersets(e, g)
    case Computed(c) => k == Goal(g.obj, c, g.user)
    case TupleToUserset(ts, c) => k in TtuGoals(e, g, ts, c)
    case Union(cs) => exists i :: 0 <= i < |cs| && IsCleanLink(e, g, cs[i], k)
    case _ => false
  }

  /** Goals for one user, on the relations of the path, each a sub-goal of the one before. */
  ghost predicate IsChain(e: Env, path: seq<Node>, gs: seq<Goal>) {
    && |gs| == |path| && (forall i :: 0 <= i < |gs| ==> NodeOf(gs[i]) == path[i] && Defined(e, path[i].0, path[i].1))
    && forall i :: 0 <= i < |gs| - 1 ==> IsCleanLink(e, gs[i], RewriteOf(e, path[i].0, path[i].1), gs[i + 1])
  }

  lemma {:induction false} LinkHolds(e: Env, g: Goal, rw: Rewrite, k: Goal)
    requires IsCleanLink(e, g, rw, k) && IsTrue(e, k)
    ensures IsTrueRw(e, g, rw) && k.user == g.user
    decreases rw
  {
    if rw.Union? {
      var i :| 0 <= i < |rw.children| && IsCleanLink(e, g, rw.children[i], k);
      LinkHolds(e, g, rw.children[i], k);
      UnionMeaning(e, g, rw.children);
    } else {
      var n: nat :| Holds(e, n, k);
      assert HoldsRw(e, n, g, rw);
    }
  }

  /** Chains follow the steps that the search takes outside intersections and exclusions. */
  lemma {:induction false} LinkIsCleanStep(e: Env, g: Goal, rw: Rewrite, k: Goal)
    requires ValidTuples(e) && IsCleanLink(e, g, rw, k)
    ensures CleanNext(e, NodeOf(g), rw, NodeOf(k))
    decreases rw
  {
    match rw
    case This =>
      var t :| t in e.tuples && t.obj == g.obj && t.relation == g.relation && t.subject.Userset? &&
               RefOf(t.subject) in Restrictions(e, g.obj.typ, g.relation) &&
                   k == Goal(t.subject.obj, t.subject.relation, g.user);
      assert RefOf(t.subject) in Restrictions(e, g.obj.typ, g.relation);
    case TupleToUserset(ts, c) =>
      assert TypeRef(k.obj.typ) in Restrictions(e, g.obj.typ, ts);
    case Union(cs) =>
      var i :| 0 <= i < |cs| && IsCleanLink(e, g, cs[i], k);
      LinkIsCleanStep(e, g, cs[i], k);
    case _ =>
  }

  /** An edge without the flag needs no further evaluation at all: an object that the user reaches through
      it, followed up along a chain to the target, has the target relation. */
  lemma {:induction false} CleanEdgeReachesTarget(e: Env, rank: Rank, source: Ref, path: seq<Node>, x: Edge,
                                                  gs: seq<Goal>)
    requires |path| >= 1 && CleanVia(e, source, path, path[0], x) && IsChain(e, path, gs)
    requires Guarded(e, rank, gs[0].user) && Realized(e, source, gs[|gs| - 1], x)
    ensures IsTrue(e, gs[0]) && gs[|gs| - 1].user == gs[0].user
    decreases |path|
  {
    var g := gs[0];
    var rw := RewriteOf(e, path[0].0, path[0].1);
    if |path| == 1 {
      CleanEdgeMeaning(e, source, g, rw, x);
    } else {
      assert IsCleanLink(e, gs[0], rw, gs[0 + 1]);
      LinkUser(e, g, rw, gs[1]);
      forall i | 0 <= i < |path[1..]| - 1
        ensures IsCleanStep(e, path[1..][i], path[1..][i + 1])
        ensures IsCleanLink(e, gs[1..][i], RewriteOf(e, path[1..][i].0, path[1..][i].1), gs[1..][i + 1])
      {
        assert IsCleanStep(e, path[i + 1], path[i + 1 + 1]);
        assert IsCleanLink(e, gs[i + 1], RewriteOf(e, path[i + 1].0, path[i + 1].1), gs[i + 1 + 1]);
      }
      CleanEdgeReachesTarget(e, rank, source, path[1..], x, gs[1..]);
      LinkHolds(e, g, rw, gs[1]);
    }
    var n: nat :| HoldsRw(e, n, g, rw);
    HoldsIsReached(e, rank, n, g, rw);
    GoalTrue(e, g);
  }

  lemma {:induction false} LinkUser(e: Env, g: Goal, rw: Rewrite, k: Goal)
    requires IsCleanLink(e, g, rw, k)
    ensures k.user == g.user
    decreases rw
  {
    if rw.Union? {
      var i :| 0 <= i < |rw.children| && IsCleanLink(e, g, rw.children[i], k);
      LinkUser(e, g, rw.children[i], k);
    }
  }
}
