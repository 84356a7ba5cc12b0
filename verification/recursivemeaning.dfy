/** When the breadth-first strategy agrees with what the goals mean. */
module RecursiveMeaning {
  import opened Options
  import opened Model
  import opened Semantics
  import opened Reducers
  import opened Claims
  import opened FastPath
  import opened FastPathMeaning
  import opened Weight2
  import opened LeafReads
  import opened Recursive
  import S = Streams

  /** The part of the rewrite that refers back to the relation. */
  function LeafOf(s: Search): Rewrite {
    match s.mapping
    case ByUserset => This
    case ByParent(ts) => TupleToUserset(ts, s.r)
  }

  /** The sub-goals of the recursive part at `g`. */
  function NextGoals(e: Env, s: Search, g: Goal): set<Goal> {
    match s.mapping
    case ByUserset => AllUsersets(e, g)
    case ByParent(ts) => TtuGoals(e, g, ts, s.r)
  }

  function EdgeRelation(s: Search): RelationName {
    match s.mapping
    case ByUserset => s.r
    case ByParent(ts) => ts
  }

  /** The restriction through which the relation refers to itself. */
  function SelfRef(s: Search): Ref {
    match s.mapping
    case ByUserset => UsersetRef(s.t, s.r)
    case ByParent(_) => TypeRef(s.t)
  }

  /** A restriction of the recursive part other than the recursion leads nowhere for the user. */
  ghost predicate OthersDead(e: Env, ref: Ref, s: Search) {
    match s.mapping
    case ByUserset =>
      forall q :: q in Refs(e, s) && q != SelfRef(s) ==> (ref, q.typ, q.relation) !in e.paths
    case ByParent(ts) =>
      forall q :: q in Refs(e, s) && q.typ != s.t && Defined(e, q.typ, s.r) ==> (ref, q.typ, s.r) !in e.paths
  }

  /** The rewrite is a union of the recursive part and of operands of weight one. */
  ghost predicate UnionTree(e: Env, rank: Rank, ref: Ref, s: Search, rw: Rewrite)
    requires Acyclic(e, rank) && Compilable(e, rank, s.t, rank(s.t, s.r), rw)
    decreases rw
  {
    if rw == LeafOf(s) then OthersDead(e, ref, s)
    else if rw.Union? then forall i :: 0 <= i < |rw.children| ==> UnionTree(e, rank, ref, s, rw.children[i])
    else WeightOne(e, rank, ref, s.t, s.r, rw)
  }

  ghost predicate HasLeaf(leaf: Rewrite, rw: Rewrite)
    decreases rw
  {
    rw == leaf || (rw.Union? && exists i :: 0 <= i < |rw.children| && HasLeaf(leaf, rw.children[i]))
  }

  /** The relation can be searched recursively for the user. */
  ghost predicate Searchable(e: Env, rank: Rank, user: Subject, s: Search)
    requires Acyclic(e, rank)
  {
    && !user.Userset? && Defined(e, s.t, s.r)
    && UnionTree(e, rank, RefOf(user), s, RewriteOf(e, s.t, s.r))
    && HasLeaf(LeafOf(s), RewriteOf(e, s.t, s.r))
  }

  ghost predicate Listed(e: Env, rank: Rank, user: Subject, s: Search, o: Object)
    requires Acyclic(e, rank) && Defined(e, s.t, s.r)
  {
    o.typ == s.t && Denotes(e, rank, user, s.t, s.r, RewriteOf(e, s.t, s.r), o.id)
  }

  // ----- a denial is right

  /** The goals of the searched relation on a set of objects. */
  ghost function GoalsOn(s: Search, user: Subject, objs: set<Object>): iset<Goal> {
    iset o | o in objs && o.typ == s.t :: Goal(o, s.r, user)
  }

  /** A sub-goal either belongs to the search or leads nowhere. */
  lemma NextGoalKind(e: Env, user: Subject, s: Search, o: Object, k: Goal)
    requires ValidTuples(e) && !user.Userset? && OthersDead(e, RefOf(user), s)
    requires o.typ == s.t && k in NextGoals(e, s, Goal(o, s.r, user))
    ensures k.obj in Successors(e, s, o) && k.user == user
    ensures (k == Goal(k.obj, s.r, user) && k.obj.typ == s.t) || (!HasPath(e, k) && Fails(e, 1, k))
  {
    match s.mapping
    case ByUserset =>
      var q := UsersetRef(k.obj.typ, k.relation);
      assert q in Restrictions(e, s.t, s.r) && q in Refs(e, s);
      if q != SelfRef(s) {
        NoPathFails(e, k);
      }
    case ByParent(ts) =>
      assert TypeRef(k.obj.typ) in Restrictions(e, s.t, ts);
      if k.obj.typ != s.t {
        NoPathFails(e, k);
      }
  }

  lemma {:induction false} TreeFails(e: Env, rank: Rank, user: Subject, s: Search, o: Object, objs: set<Object>,
                                     rw: Rewrite)
    returns (n: nat)
    requires GroundedModel(e, rank) && !user.Userset? && Compilable(e, rank, s.t, rank(s.t, s.r), rw)
    requires UnionTree(e, rank, RefOf(user), s, rw)
    requires o.typ == s.t && Successors(e, s, o) <= objs
    requires !Denotes(e, rank, user, s.t, s.r, rw, o.id)
    ensures n > 0 && FailsRw(e, n, GoalsOn(s, user, objs), Goal(o, s.r, user), rw)
    decreases rw, 1
  {
    var g := Goal(o, s.r, user);
    var u := GoalsOn(s, user, objs);
    if rw == LeafOf(s) {
      n := 1;
      forall k | k in NextGoals(e, s, g) ensures FailsIn(e, 1, u, k) {
        NextGoalKind(e, user, s, o, k);
      }
    } else if rw.Union? {
      n := TreesFail(e, rank, user, s, o, objs, rw, rw.children);
    } else {
      WeightOneMeaning(e, rank, user, s.t, s.r, rw, o.id);
      assert o == Object(s.t, o.id);
      var m: nat :| FailsRw(e, m, iset{}, g, rw);
      n := m + 1;
      FailsRwMono(e, m, n, iset{}, u, g, rw);
    }
  }

  lemma {:induction false} TreesFail(e: Env, rank: Rank, user: Subject, s: Search, o: Object, objs: set<Object>,
                                     rw: Rewrite, cs: seq<Rewrite>)
    returns (n: nat)
    requires GroundedModel(e, rank) && !user.Userset?
    requires forall i :: 0 <= i < |cs| ==>
               && cs[i] < rw && Compilable(e, rank, s.t, rank(s.t, s.r), cs[i])
               && UnionTree(e, rank, RefOf(user), s, cs[i]) && !Denotes(e, rank, user, s.t, s.r, cs[i], o.id)
    requires o.typ == s.t && Successors(e, s, o) <= objs
    ensures n > 0 && forall i :: 0 <= i < |cs| ==> FailsRw(e, n, GoalsOn(s, user, objs), Goal(o, s.r, user), cs[i])
    decreases rw, 0, |cs|
  {
    n := 1;
    if cs != [] {
      var k := |cs| - 1;
      var a := TreeFails(e, rank, user, s, o, objs, cs[k]);
      var b := TreesFail(e, rank, user, s, o, objs, rw, cs[..k]);
      n := a + b;
      forall i | 0 <= i < |cs| ensures FailsRw(e, n, GoalsOn(s, user, objs), Goal(o, s.r, user), cs[i]) {
        FailsRwMono(e, if i == k then a
            else b, n, GoalsOn(s, user, objs), GoalsOn(s, user, objs), Goal(o, s.r, user), cs[i]);
      }
    }
  }

  /** The model part of what the fast paths rely on. */
  ghost predicate GroundedModel(e: Env, rank: Rank) {
    Acyclic(e, rank) && ValidTuples(e) && PathClosed(e)
  }

  /** One height at which all the objects of a closed set fail. */
  lemma {:induction false} CommonTreeFails(e: Env, rank: Rank, user: Subject, s: Search, some: set<Object>,
                                           objs: set<Object>)
    returns (n: nat)
    requires GroundedModel(e, rank) && Searchable(e, rank, user, s)
    requires some <= objs && IsClosed(e, s, objs) && forall o :: o in objs ==> !Listed(e, rank, user, s, o)
    ensures forall o :: o in some && o.typ == s.t ==>
              FailsRw(e, n, GoalsOn(s, user, objs), Goal(o, s.r, user), RewriteOf(e, s.t, s.r))
  {
    n := 0;
    if some != {} {
      var o :| o in some;
      var b := CommonTreeFails(e, rank, user, s, some - {o}, objs);
      var a := 0;
      if o.typ == s.t {
        a := TreeFails(e, rank, user, s, o, objs, RewriteOf(e, s.t, s.r));
      }
      n := a + b;
      var u := GoalsOn(s, user, objs);
      forall p | p in some && p.typ == s.t ensures FailsRw(e, n, u, Goal(p, s.r, user), RewriteOf(e, s.t, s.r)) {
        FailsRwMono(e, if p == o then a else b, n, u, u, Goal(p, s.r, user), RewriteOf(e, s.t, s.r));
      }
    }
  }

  /** If no listed object can be reached, every sub-goal of the recursive part is false. */
  lemma DenialIsRight(e: Env, rank: Rank, user: Subject, s: Search, start: Object, objs: set<Object>)
    requires GroundedModel(e, rank) && Searchable(e, rank, user, s) && start.typ == s.t
    requires Successors(e, s, start) <= objs && IsClosed(e, s, objs)
    requires forall o :: o in objs ==> !Listed(e, rank, user, s, o)
    ensures forall k :: k in NextGoals(e, s, Goal(start, s.r, user)) ==> IsFalse(e, k)
  {
    var n := CommonTreeFails(e, rank, user, s, objs, objs);
    var u := GoalsOn(s, user, objs);
    assert Unfounded(e, n, u) by {
      forall k | k in u ensures Unsupported(e, n, u, k) {}
    }
    LeafIsInTree(e, rank, RefOf(user), s, RewriteOf(e, s.t, s.r));
    forall k | k in NextGoals(e, s, Goal(start, s.r, user)) ensures IsFalse(e, k) {
      NextGoalKind(e, user, s, start, k);
      if k in u {
        assert Fails(e, n + 1, k);
      }
    }
  }

  lemma {:induction false} LeafIsInTree(e: Env, rank: Rank, ref: Ref, s: Search, rw: Rewrite)
    requires Acyclic(e, rank) && Compilable(e, rank, s.t, rank(s.t, s.r), rw)
    requires UnionTree(e, rank, ref, s, rw) && HasLeaf(LeafOf(s), rw)
    ensures OthersDead(e, ref, s)
    decreases rw
  {
    if rw != LeafOf(s) {
      var i :| 0 <= i < |rw.children| && HasLeaf(LeafOf(s), rw.children[i]);
      LeafIsInTree(e, rank, ref, s, rw.children[i]);
    }
  }

  // ----- an allowance is right unless the search strays and returns

  /** `q` can be followed from objects of type `t`: some valid tuple does so. */
  ghost predicate Follows(e: Env, s: Search, t: TypeName, q: Ref) {
    q in Restrictions(e, t, EdgeRelation(s)) &&
    match s.mapping
    case ByUserset => q.UsersetRef? && q in Refs(e, s)
    case ByParent(_) => q.TypeRef?
  }

  /** Once the search leaves the recursive relation it never comes back to its type.  The condition
      is about the model alone. */
  ghost predicate NoReturn(e: Env, s: Search) {
    exists strayed: iset<TypeName> :: Strayed(e, s, strayed)
  }

  ghost predicate Strayed(e: Env, s: Search, strayed: iset<TypeName>) {
    && s.t !in strayed
    && (forall q :: Follows(e, s, s.t, q) && q != SelfRef(s) ==> q.typ in strayed)
    && (forall t, q :: t in strayed && Follows(e, s, t, q) ==> q.typ in strayed)
  }

  lemma SuccessorFollows(e: Env, s: Search, o: Object, p: Object) returns (q: Ref)
    requires ValidTuples(e) && Defined(e, s.t, s.r) && p in Successors(e, s, o)
    ensures Follows(e, s, o.typ, q) && q.typ == p.typ
    ensures q == SelfRef(s) ==> forall user :: Goal(p, s.r, user) in NextGoals(e, s, Goal(o, s.r, user))
  {
    var t :| t in e.tuples && t.obj == o && t.relation == EdgeRelation(s) && !t.subject.Wildcard? &&
        t.subject.obj == p &&
             (if s.mapping.ByUserset? then t.subject.Userset? && RefOf(t.subject) in Refs(e, s) else t.subject.User?);
    q := RefOf(t.subject);
    assert q in Restrictions(e, o.typ, EdgeRelation(s));
    if q == SelfRef(s) {
      forall user ensures Goal(p, s.r, user) in NextGoals(e, s, Goal(o, s.r, user)) {
        assert RefOf(t.subject) in Restrictions(e, o.typ, EdgeRelation(s));
      }
    }
  }

  /** A listed object, or one with a true sub-goal, satisfies the rewrite. */
  lemma {:induction false} TreeHolds(e: Env, rank: Rank, user: Subject, s: Search, o: Object, rw: Rewrite)
    requires GroundedModel(e, rank) && !user.Userset? && Compilable(e, rank, s.t, rank(s.t, s.r), rw)
    requires UnionTree(e, rank, RefOf(user), s, rw) && o.typ == s.t
    requires Denotes(e, rank, user, s.t, s.r, rw, o.id) ||
             (HasLeaf(LeafOf(s), rw) && exists k :: k in NextGoals(e, s, Goal(o, s.r, user)) && IsTrue(e, k))
    ensures IsTrueRw(e, Goal(o, s.r, user), rw)
    decreases rw
  {
    var g := Goal(o, s.r, user);
    assert o == Object(s.t, o.id);
    if rw == LeafOf(s) {
      if Denotes(e, rank, user, s.t, s.r, rw, o.id) {
        assert HoldsRw(e, 0, g, rw);
      } else {
        var k :| k in NextGoals(e, s, g) && IsTrue(e, k);
        var n: nat :| Holds(e, n, k);
        assert HoldsRw(e, n, g, rw);
      }
    } else if rw.Union? {
      var cs := rw.children;
      var i: nat;
      if Denotes(e, rank, user, s.t, s.r, rw, o.id) {
        i :| 0 <= i < |cs| && Denotes(e, rank, user, s.t, s.r, cs[i], o.id);
      } else {
        i :| 0 <= i < |cs| && HasLeaf(LeafOf(s), cs[i]);
      }
      TreeHolds(e, rank, user, s, o, cs[i]);
      UnionMeaning(e, g, cs);
    } else {
      WeightOneMeaning(e, rank, user, s.t, s.r, rw, o.id);
    }
  }

  /** Every step of a walk to a listed object stays within the recursion, so every object on the walk
      has the relation. */
  lemma {:induction false} WalkHolds(e: Env, rank: Rank, user: Subject, s: Search, path: seq<Object>)
    requires GroundedModel(e, rank) && Searchable(e, rank, user, s) && NoReturn(e, s)
    requires |path| >= 1 && path[0].typ == s.t && IsWalk(e, s, path) && Listed(e, rank, user, s, path[|path| - 1])
    ensures IsTrue(e, Goal(path[0], s.r, user))
    ensures |path| >= 2 ==> Goal(path[1], s.r, user) in NextGoals(e, s, Goal(path[0], s.r, user)) &&
                            IsTrue(e, Goal(path[1], s.r, user))
    decreases |path|
  {
    var g := Goal(path[0], s.r, user);
    var last := path[|path| - 1];
    DenotesReaches(e, rank, user, s.t, s.r, RewriteOf(e, s.t, s.r), last.id);
    if |path| >= 2 {
      assert path[0 + 1] in Successors(e, s, path[0]);
      var q := SuccessorFollows(e, s, path[0], path[1]);
      var strayed :| Strayed(e, s, strayed);
      if q != SelfRef(s) {
        StrayedForGood(e, s, strayed, path[1..]);
        assert false;
      }
      assert path[1..][|path| - 2] == last;
      WalkHolds(e, rank, user, s, path[1..]);
    }
    TreeHolds(e, rank, user, s, path[0], RewriteOf(e, s.t, s.r));
    GoalTrue(e, g);
  }

  lemma {:induction false} StrayedForGood(e: Env, s: Search, strayed: iset<TypeName>, path: seq<Object>)
    requires ValidTuples(e) && Defined(e, s.t, s.r) && Strayed(e, s, strayed)
    requires |path| >= 1 && path[0].typ in strayed && IsWalk(e, s, path)
    ensures path[|path| - 1].typ in strayed
    decreases |path|
  {
    if |path| >= 2 {
      assert path[0 + 1] in Successors(e, s, path[0]);
      var q := SuccessorFollows(e, s, path[0], path[1]);
      StrayedForGood(e, s, strayed, path[1..]);
    }
  }

  // ----- the strategy

  method RecursiveUserset(e: Env, ghost rank: Rank, store: Store, g: Goal, depth: nat, maxDepth: nat, faulty: bool,
                          ghost visited: set<Goal>)
    returns (r: Outcome)
    requires Grounded(e, rank, store) && depth < maxDepth
    requires var s := Search(ByUserset, g.obj.typ, g.relation);
             Searchable(e, rank, g.user, s) && NoReturn(e, s) && ReadableSearch(e, rank, store, g.user, s)
    ensures Meets(r, SomeClaim(e, visited, AllUsersets(e, g)))
    ensures !faulty && EndsInTime(e, Search(ByUserset, g.obj.typ, g.relation), maxDepth - depth, g.obj) ==> r.Answer?
  {
    var s := Search(ByUserset, g.obj.typ, g.relation);
    ghost var path, closed;
    r, path, closed := RunSearch(e, rank, store, s, g, depth, maxDepth, faulty);
    SearchMeets(e, rank, s, g, r, path, closed, visited);
  }

  method RecursiveTTU(e: Env, ghost rank: Rank, store: Store, g: Goal, tupleset: RelationName, depth: nat,
                      maxDepth: nat,
                      faulty: bool, ghost visited: set<Goal>)
    returns (r: Outcome)
    requires Grounded(e, rank, store) && depth < maxDepth
    requires var s := Search(ByParent(tupleset), g.obj.typ, g.relation);
             Searchable(e, rank, g.user, s) && NoReturn(e, s) && ReadableSearch(e, rank, store, g.user, s) &&
             SelfRef(s) in Refs(e, s)
    ensures Meets(r, SomeClaim(e, visited, TtuGoals(e, g, tupleset, g.relation)))
    ensures !faulty && EndsInTime(e, Search(ByParent(tupleset), g.obj.typ, g.relation), maxDepth - depth, g.obj) ==>
            r.Answer?
  {
    var s := Search(ByParent(tupleset), g.obj.typ, g.relation);
    ghost var path, closed;
    r, path, closed := RunSearch(e, rank, store, s, g, depth, maxDepth, faulty);
    SearchMeets(e, rank, s, g, r, path, closed, visited);
  }

  /** The relations whose objects are listed from the user side. */
  function ListedRefs(e: Env, s: Search): seq<Ref> {
    if s.mapping.ByUserset? then [UsersetRef(s.t, s.r)] else Refs(e, s)
  }

  /** All that the search reads from the user side is merged without loss. */
  ghost predicate ReadableSearch(e: Env, rank: Rank, store: Store, user: Subject, s: Search)
    requires Acyclic(e, rank)
  {
    ReadableParents(e, rank, store, user, ListedRefs(e, s), s.r)
  }

  lemma ReadableStoreIsEnough(e: Env, rank: Rank, store: Store, user: Subject, s: Search)
    requires Acyclic(e, rank) && IsReadable(e, store, user)
    ensures ReadableSearch(e, rank, store, user, s)
  {}

  /** What an answer of the search says: an allowance comes with a walk to a listed object, a denial with a
      closed set around the start that has no such object. */
  ghost predicate Certified(e: Env, rank: Rank, s: Search, g: Goal, r: Outcome, path: seq<Object>, closed: set<Object>)
    requires Acyclic(e, rank) && Defined(e, s.t, s.r)
  {
    && (r.Answer? ==> !r.cycle)
    && (r.Allowed() ==>
       |path| >= 2 && path[0] == g.obj && IsWalk(e, s, path) && Listed(e, rank, g.user, s, path[|path| - 1]))
    && (r.Answer? && !r.allowed ==>
          && Successors(e, s, g.obj) <= closed && IsClosed(e, s, closed)
          && forall o :: o in closed ==> !Listed(e, rank, g.user, s, o))
  }

  /** One run of the strategy, on any model that it is offered for. */
  method RunSearch(e: Env, ghost rank: Rank, store: Store, s: Search, g: Goal, depth: nat, maxDepth: nat, faulty: bool)
    returns (r: Outcome, ghost path: seq<Object>, ghost closed: set<Object>)
    requires Grounded(e, rank, store) && depth < maxDepth
    requires Searchable(e, rank, g.user, s) && ReadableSearch(e, rank, store, g.user, s)
    requires g.obj.typ == s.t && g.relation == s.r && (s.mapping.ByParent? ==> SelfRef(s) in Refs(e, s))
    ensures Certified(e, rank, s, g, r, path, closed)
    ensures !faulty && EndsInTime(e, s, maxDepth - depth, g.obj) ==> r.Answer?
  {
    var chans, ok;
    ghost var types;
    chans, types, ok := UserLists(e, rank, store, g.user, faulty, ListedRefs(e, s), s.r);
    ListedTypes(e, rank, g.user, s, types);
    var users := UsersOf(chans, ok);
    UsersAreListed(e, rank, g.user, s, chans, types, users, ok);
    var objs := ProduceRight(Successors(e, s, g.obj), faulty);
    r, path, closed := RecursiveFastPath(e, s, g.obj, objs, users, depth, maxDepth, faulty, ObjectsOf(users));
    forall o | o in closed && r.Answer? && !r.allowed ensures !Listed(e, rank, g.user, s, o) {
      assert o !in ObjectsOf(users);
    }
  }

  /** Only the searched type has objects to list, and it is among the types asked. */
  lemma ListedTypes(e: Env, rank: Rank, user: Subject, s: Search, types: seq<TypeName>)
    requires GroundedModel(e, rank) && Searchable(e, rank, user, s) &&
             (s.mapping.ByParent? ==> SelfRef(s) in Refs(e, s))
    requires forall t :: t in types ==> Defined(e, t, s.r) && exists q :: q in ListedRefs(e, s) && q.typ == t
    ensures forall i, x :: 0 <= i < |types| && DenotesFor(e, rank, user, types[i], s.r, x) ==> types[i] == s.t
    ensures exists q :: q in ListedRefs(e, s) && q.typ == s.t
  {
    forall i, x | 0 <= i < |types| && DenotesFor(e, rank, user, types[i], s.r, x) ensures types[i] == s.t {
      assert types[i] in types;
      if s.mapping.ByParent? {
        OtherParentsListNothing(e, rank, user, s, types[i], x);
      }
    }
    var q := if s.mapping.ByUserset? then UsersetRef(s.t, s.r) else SelfRef(s);
    assert q in ListedRefs(e, s) && q.typ == s.t;
  }

  /** What the search answers is what the sub-goals mean. */
  lemma SearchMeets(e: Env, rank: Rank, s: Search, g: Goal, r: Outcome, path: seq<Object>, closed: set<Object>,
                    visited: set<Goal>)
    requires GroundedModel(e, rank) && Searchable(e, rank, g.user, s) && NoReturn(e, s)
    requires g.obj.typ == s.t && g.relation == s.r && Certified(e, rank, s, g, r, path, closed)
    ensures Meets(r, SomeClaim(e, visited, NextGoals(e, s, g)))
  {
    if r.Allowed() {
      WalkHolds(e, rank, g.user, s, path);
    } else if r.Answer? {
      DenialIsRight(e, rank, g.user, s, g.obj, closed);
    }
    DecidedMeets(e, visited, NextGoals(e, s, g), r);
  }

  /** The messages from the user side say which objects are listed, all of them unless an error is among
      them. */
  ghost predicate FromUser(e: Env, rank: Rank, user: Subject, s: Search, users: seq<RightMsg>)
    requires Acyclic(e, rank) && Defined(e, s.t, s.r)
  {
    && (forall o :: OnRight(users, o) ==> Listed(e, rank, user, s, o))
    && (RightClean(users) ==> forall o :: Listed(e, rank, user, s, o) ==> OnRight(users, o))
  }

  ghost predicate DenotesFor(e: Env, rank: Rank, user: Subject, t: TypeName, r: RelationName, x: S.Id)
    requires Acyclic(e, rank)
  {
    Defined(e, t, r) && Denotes(e, rank, user, t, r, RewriteOf(e, t, r), x)
  }

  lemma UsersAreListed(e: Env, rank: Rank, user: Subject, s: Search, chans: seq<seq<LeftMsg>>, types: seq<TypeName>,
                       users: seq<RightMsg>, ok: bool)
    requires Acyclic(e, rank) && Defined(e, s.t, s.r) && |types| == |chans|
    requires forall i :: 0 <= i < |chans| ==> ListsDenoted(e, rank, user, chans[i], types[i], s.r)
    requires forall i, x :: 0 <= i < |types| && DenotesFor(e, rank, user, types[i], s.r, x) ==> types[i] == s.t
    requires ok ==> s.t in types
    requires forall o :: OnRight(users, o) ==> exists i :: 0 <= i < |chans| && OnLeft(chans[i], o)
    requires RightClean(users) ==> ok && AllPassedOn(chans, users)
    ensures FromUser(e, rank, user, s, users)
  {
    forall o | OnRight(users, o) ensures Listed(e, rank, user, s, o) {
      var i :| 0 <= i < |chans| && OnLeft(chans[i], o);
      assert o.typ == types[i] && DenotesFor(e, rank, user, types[i], s.r, o.id);
    }
    if RightClean(users) {
      var i :| 0 <= i < |types| && types[i] == s.t;
      forall o | Listed(e, rank, user, s, o) ensures OnRight(users, o) {
        assert LeftClean(chans[i]) && o == Object(s.t, o.id);
        assert OnLeft(chans[i], Object(s.t, o.id));
      }
    }
  }

  function ObjectsOf(msgs: seq<RightMsg>): (objs: set<Object>)
    ensures forall o :: o in objs <==> OnRight(msgs, o)
  {
    set m | m in msgs && m.Found? :: m.obj
  }

  /** Every channel was read without an error, and every object on it was passed on. */
  ghost predicate AllPassedOn(chans: seq<seq<LeftMsg>>, users: seq<RightMsg>) {
    forall i :: 0 <= i < |chans| ==> LeftClean(chans[i]) && forall o :: OnLeft(chans[i], o) ==> OnRight(users, o)
  }

  /** If the channels could not be started that error is all there is. */
  method UsersOf(chans: seq<seq<LeftMsg>>, ok: bool) returns (users: seq<RightMsg>)
    ensures forall o :: OnRight(users, o) ==> exists i :: 0 <= i < |chans| && OnLeft(chans[i], o)
    ensures RightClean(users) ==> ok && AllPassedOn(chans, users)
    ensures ok && (forall i :: 0 <= i < |chans| ==> LeftClean(chans[i])) ==> RightClean(users)
  {
    if !ok {
      users := [RightError];
      assert users[0] == RightError;
    } else {
      users := IteratorsToUserset(chans);
    }
  }

  /** Passes on the objects of several left producers, and their errors. */
  method IteratorsToUserset(chans: seq<seq<LeftMsg>>) returns (users: seq<RightMsg>)
    ensures forall o :: OnRight(users, o) ==> exists i :: 0 <= i < |chans| && OnLeft(chans[i], o)
    ensures RightClean(users) ==> AllPassedOn(chans, users)
    ensures (forall i :: 0 <= i < |chans| ==> LeftClean(chans[i])) ==> RightClean(users)
  {
    var left := FanIn(chans);
    users := [];
    var n := 0;
    while n < |left| && left[n].Objects?
      invariant 0 <= n <= |left|
      invariant forall o :: OnRight(users, o) ==> OnLeft(left[..n], o)
      invariant RightClean(users) ==> forall o :: OnLeft(left[..n], o) ==> OnRight(users, o)
      invariant RightClean(users) <==> LeftClean(left[..n])
    {
      ghost var before := users;
      users := users + PassOn(left[n].answers);
      PassOnKeeps(left, n, before);
      n := n + 1;
    }
    forall o | OnRight(users, o) ensures exists i :: 0 <= i < |chans| && OnLeft(chans[i], o) {
      var j :| 0 <= j < n && left[..n][j].Objects? && Some(o) in left[..n][j].answers;
      assert left[j] in left;
      var i :| 0 <= i < |chans| && left[j] in chans[i];
      assert OnLeft(chans[i], o);
    }
    CleanFanIn(chans, left);
    if n < |left| {
      assert forall o :: OnRight(users + [RightError], o) ==> OnRight(users, o);
      users := users + [RightError];
      assert users[|users| - 1] == RightError && left[n].LeftError?;
    } else {
      assert left[..n] == left;
      if RightClean(users) {
        forall i | 0 <= i < |chans|
          ensures LeftClean(chans[i]) && forall o :: OnLeft(chans[i], o) ==> OnRight(users, o)
        {
          CleanChannel(chans, left, i);
          forall o | OnLeft(chans[i], o) ensures OnRight(users, o) {
            FanInKeeps(chans, left, i, o);
          }
        }
      }
    }
  }

  /** What one iterator is passed on as: its objects up to the first error. */
  function PassOn(answers: seq<Option<Object>>): (msgs: seq<RightMsg>)
    ensures forall o :: Found(o) in msgs ==> Some(o) in answers
    ensures None !in answers ==> forall o :: Some(o) in answers ==> Found(o) in msgs
    ensures RightError in msgs <==> None in answers
  {
    if answers == [] then []
    else
      match answers[0]
      case None => [RightError]
      case Some(o) => [Found(o)] + PassOn(answers[1..])
  }

  lemma PassOnKeeps(left: seq<LeftMsg>, n: nat, users: seq<RightMsg>)
    requires n < |left| && left[n].Objects?
    requires forall o :: OnRight(users, o) ==> OnLeft(left[..n], o)
    requires RightClean(users) ==> forall o :: OnLeft(left[..n], o) ==> OnRight(users, o)
    requires RightClean(users) <==> LeftClean(left[..n])
    ensures var more := users + PassOn(left[n].answers);
            && (forall o :: OnRight(more, o) ==> OnLeft(left[..n + 1], o))
            && (RightClean(more) ==> forall o :: OnLeft(left[..n + 1], o) ==> OnRight(more, o))
            && (RightClean(more) <==> LeftClean(left[..n + 1]))
  {
    OnLeftNext(left, n);
    var m := left[n];
    var passed := PassOn(m.answers);
    assert left[..n + 1] == left[..n] + [m];
    CleanJoin(users, passed);
    if None in m.answers {
      var i :| 0 <= i < |passed| && passed[i] == RightError;
      assert !LeftClean(left[..n + 1]) by { assert left[..n + 1][n] == m; }
    } else {
      forall i | 0 <= i < |passed| ensures passed[i].Found? {
        assert passed[i] in passed;
      }
    }
  }

  lemma CleanJoin(a: seq<RightMsg>, b: seq<RightMsg>)
    ensures RightClean(a + b) <==> RightClean(a) && RightClean(b)
  {
    if RightClean(a + b) {
      forall i | 0 <= i < |a| ensures a[i].Found? { assert (a + b)[i] == a[i]; }
      forall i | 0 <= i < |b| ensures b[i].Found? { assert (a + b)[|a| + i] == b[i]; }
    }
  }

  lemma CleanFanIn(chans: seq<seq<LeftMsg>>, left: seq<LeftMsg>)
    requires forall m :: m in left <==> exists i :: 0 <= i < |chans| && m in chans[i]
    ensures (forall i :: 0 <= i < |chans| ==> LeftClean(chans[i])) ==> LeftClean(left)
  {
    if forall i :: 0 <= i < |chans| ==> LeftClean(chans[i]) {
      forall j | 0 <= j < |left| ensures left[j].Objects? && None !in left[j].answers {
        assert left[j] in left;
        var i :| 0 <= i < |chans| && left[j] in chans[i];
      }
    }
  }

  /** One list for every type that defines the relation. */
  method UserLists(e: Env, ghost rank: Rank, store: Store, user: Subject, faulty: bool, refs: seq<Ref>, c: RelationName)
    returns (chans: seq<seq<LeftMsg>>, ghost types: seq<TypeName>, ok: bool)
    requires Grounded(e, rank, store) && ReadableParents(e, rank, store, user, refs, c)
    ensures |types| == |chans|
    ensures forall i :: 0 <= i < |chans| ==> ListsDenoted(e, rank, user, chans[i], types[i], c)
    ensures forall t :: t in types ==> Defined(e, t, c) && exists q :: q in refs && q.typ == t
    ensures ok ==> forall q :: q in refs && Defined(e, q.typ, c) ==> q.typ in types
    ensures !faulty ==> ok && forall i :: 0 <= i < |chans| ==> LeftClean(chans[i])
  {
    chans, types, ok := [], [], true;
    for i := 0 to |refs|
      invariant |types| == |chans|
      invariant forall j :: 0 <= j < |chans| ==> ListsDenoted(e, rank, user, chans[j], types[j], c)
      invariant forall t :: t in types ==> Defined(e, t, c) && exists q :: q in refs && q.typ == t
      invariant forall q :: q in refs[..i] && Defined(e, q.typ, c) ==> q.typ in types
      invariant !faulty ==> forall j :: 0 <= j < |chans| ==> LeftClean(chans[j])
    {
      assert refs[..i + 1] == refs[..i] + [refs[i]];
      if Defined(e, refs[i].typ, c) {
        var left;
        ReadableReads(e, rank, store, user, faulty, refs[i].typ, c);
        left, ok := ListLeft(e, rank, LeafRows(e, store, user), faulty, refs[i].typ, c);
        if !ok { return; }
        ListsWhatIsDenoted(e, rank, store, user, left, refs[i].typ, c);
        chans, types := chans + [left], types + [refs[i].typ];
      }
    }
    ok := true;
    assert refs[..|refs|] == refs;
  }

  lemma ListsWhatIsDenoted(e: Env, rank: Rank, store: Store, user: Subject, left: seq<LeftMsg>, t: TypeName,
                           c: RelationName)
    requires Grounded(e, rank, store) && Defined(e, t, c) && Readable(e, rank, store, user, t, c)
    requires forall o :: OnLeft(left, o) ==> o.typ == t && ListedFor(e, rank, LeafRows(e, store, user), t, c)[o.id] > 0
    requires LeftClean(left) ==>
               forall x: S.Id :: ListedFor(e, rank, LeafRows(e, store, user), t, c)[x] > 0 ==>
                   OnLeft(left, Object(t, x))
    ensures ListsDenoted(e, rank, user, left, t, c)
  {
    ReadableReads(e, rank, store, user, false, t, c);
    forall x: S.Id
      ensures ListedFor(e, rank, LeafRows(e, store, user), t, c)[x] > 0 <==>
              Denotes(e, rank, user, t, c, RewriteOf(e, t, c), x)
    {
      ListsTheSet(e, rank, user, LeafRows(e, store, user), t, c, RewriteOf(e, t, c), x);
    }
  }

  ghost predicate ListsDenoted(e: Env, rank: Rank, user: Subject, left: seq<LeftMsg>, t: TypeName, c: RelationName)
    requires Acyclic(e, rank)
  {
    && Defined(e, t, c)
    && (forall o :: OnLeft(left, o) ==> o.typ == t && Denotes(e, rank, user, t, c, RewriteOf(e, t, c), o.id))
    && (LeftClean(left) ==>
          forall x: S.Id :: Denotes(e, rank, user, t, c, RewriteOf(e, t, c), x) ==> OnLeft(left, Object(t, x)))
  }

  lemma OtherParentsListNothing(e: Env, rank: Rank, user: Subject, s: Search, t: TypeName, x: S.Id)
    requires GroundedModel(e, rank) && Searchable(e, rank, user, s) && s.mapping.ByParent?
    requires Defined(e, t, s.r) && exists q :: q in Refs(e, s) && q.typ == t
    requires Denotes(e, rank, user, t, s.r, RewriteOf(e, t, s.r), x)
    ensures t == s.t
  {
    LeafIsInTree(e, rank, RefOf(user), s, RewriteOf(e, s.t, s.r));
    DenotesReaches(e, rank, user, t, s.r, RewriteOf(e, t, s.r), x);
  }
}
