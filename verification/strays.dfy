/** Exactly when the breadth-first strategy agrees with the reference strategy on every store of a model.
    The search keeps only the object of a userset or of a parent (tuple_mappers.go), so it may leave the
    recursive relation through another userset, or a parent of another type, and come back. */
module Strays {
  import opened Model
  import opened Semantics
  import opened FastPath
  import opened FastPathMeaning
  import opened Weight2
  import opened LeafReads
  import opened Claims
  import opened Reducers
  import PathGuard
  import opened Recursive
  import opened RecursiveMeaning
  import S = Streams

  /** Two environments with the same model, whatever their tuples. */
  predicate SameModel(a: Env, b: Env) {
    a.relations == b.relations && a.paths == b.paths
  }

  // ----- what depends on the model alone

  lemma {:induction false} ReachesSame(a: Env, b: Env, ref: Ref, t: TypeName, r: RelationName, rw: Rewrite)
    requires SameModel(a, b)
    ensures Reaches(a, ref, t, r, rw) <==> Reaches(b, ref, t, r, rw)
  {
    match rw
    case Union(cs) => forall i | 0 <= i < |cs| { ReachesSame(a, b, ref, t, r, cs[i]); }
    case Intersection(cs) => forall i | 0 <= i < |cs| { ReachesSame(a, b, ref, t, r, cs[i]); }
    case Difference(x, y) =>
      ReachesSame(a, b, ref, t, r, x);
      ReachesSame(a, b, ref, t, r, y);
    case _ =>
  }

  lemma PathClosedSame(a: Env, b: Env)
    requires SameModel(a, b) && PathClosed(a)
    ensures PathClosed(b)
  {
    forall ref, t, r | Defined(b, t, r) && Reaches(b, ref, t, r, RewriteOf(b, t, r)) ensures (ref, t, r) in b.paths {
      ReachesSame(a, b, ref, t, r, RewriteOf(a, t, r));
      assert Defined(a, t, r) && Reaches(a, ref, t, r, RewriteOf(a, t, r));
    }
  }

  lemma {:induction false} WeightOneSame(a: Env, b: Env, rank: Rank, ref: Ref, t: TypeName, r: RelationName,
                                         rw: Rewrite)
    requires SameModel(a, b) && Acyclic(a, rank) && Acyclic(b, rank)
    requires Compilable(a, rank, t, rank(t, r), rw) && Compilable(b, rank, t, rank(t, r), rw)
    requires WeightOne(a, rank, ref, t, r, rw)
    ensures WeightOne(b, rank, ref, t, r, rw)
    decreases rank(t, r), rw
  {
    match rw
    case Computed(c) => WeightOneSame(a, b, rank, ref, t, c, RewriteOf(a, t, c));
    case Union(cs) => forall i | 0 <= i < |cs| { WeightOneSame(a, b, rank, ref, t, r, cs[i]); }
    case Intersection(cs) => forall i | 0 <= i < |cs| { WeightOneSame(a, b, rank, ref, t, r, cs[i]); }
    case Difference(x, y) =>
      WeightOneSame(a, b, rank, ref, t, r, x);
      WeightOneSame(a, b, rank, ref, t, r, y);
    case _ =>
  }

  lemma {:induction false} UnionTreeSame(a: Env, b: Env, rank: Rank, ref: Ref, s: Search, rw: Rewrite)
    requires SameModel(a, b) && Acyclic(a, rank) && Acyclic(b, rank)
    requires Compilable(a, rank, s.t, rank(s.t, s.r), rw) && Compilable(b, rank, s.t, rank(s.t, s.r), rw)
    requires UnionTree(a, rank, ref, s, rw)
    ensures UnionTree(b, rank, ref, s, rw)
    decreases rw
  {
    if rw == LeafOf(s) {
    } else if rw.Union? {
      forall i | 0 <= i < |rw.children| { UnionTreeSame(a, b, rank, ref, s, rw.children[i]); }
    } else {
      WeightOneSame(a, b, rank, ref, s.t, s.r, rw);
    }
  }

  lemma SearchableSame(a: Env, b: Env, rank: Rank, user: Subject, s: Search)
    requires SameModel(a, b) && Acyclic(a, rank) && Searchable(a, rank, user, s)
    ensures Acyclic(b, rank) && Searchable(b, rank, user, s)
  {
    PathGuard.AcyclicToo(a, b, rank);
    assert Compilable(b, rank, s.t, rank(s.t, s.r), RewriteOf(b, s.t, s.r));
    UnionTreeSame(a, b, rank, RefOf(user), s, RewriteOf(a, s.t, s.r));
  }

  lemma NoReturnSame(a: Env, b: Env, s: Search)
    requires SameModel(a, b) && NoReturn(a, s)
    ensures NoReturn(b, s)
  {
    var strayed :| Strayed(a, s, strayed);
    forall t, q | Follows(b, s, t, q) ensures Follows(a, s, t, q) {}
    assert Strayed(b, s, strayed);
  }

  // ----- a way out of the relation and back to its type

  /** The restrictions followed on a way out of the recursive relation. */
  ghost predicate WayOut(e: Env, s: Search, qs: seq<Ref>) {
    && |qs| >= 1 && Follows(e, s, s.t, qs[0]) && qs[0] != SelfRef(s)
    && forall i :: 0 <= i < |qs| - 1 ==> Follows(e, s, qs[i].typ, qs[i + 1])
  }

  ghost predicate WayBack(e: Env, s: Search, qs: seq<Ref>) {
    WayOut(e, s, qs) && qs[|qs| - 1].typ == s.t
  }

  ghost predicate LeadsOut(e: Env, s: Search, t: TypeName) {
    exists qs: seq<Ref> :: WayOutTo(e, s, qs, t)
  }

  ghost predicate WayOutTo(e: Env, s: Search, qs: seq<Ref>, t: TypeName) {
    WayOut(e, s, qs) && qs[|qs| - 1].typ == t
  }

  lemma NoReturnIffNoWayBack(e: Env, s: Search)
    ensures NoReturn(e, s) <==> !exists qs :: WayBack(e, s, qs)
  {
    if NoReturn(e, s) {
      var strayed :| Strayed(e, s, strayed);
      forall qs ensures !WayBack(e, s, qs) {
        if WayOut(e, s, qs) { StaysStrayed(e, s, strayed, qs); }
      }
    } else {
      var strayed := iset t | LeadsOut(e, s, t);
      forall q | Follows(e, s, s.t, q) && q != SelfRef(s) ensures LeadsOut(e, s, q.typ) {
        assert WayOutTo(e, s, [q], q.typ);
      }
      forall t, q | LeadsOut(e, s, t) && Follows(e, s, t, q) ensures LeadsOut(e, s, q.typ) {
        OneStepFurther(e, s, t, q);
      }
      assert !Strayed(e, s, strayed);
      var qs :| WayOutTo(e, s, qs, s.t);
      assert WayBack(e, s, qs);
    }
  }

  lemma OneStepFurther(e: Env, s: Search, t: TypeName, q: Ref)
    requires LeadsOut(e, s, t) && Follows(e, s, t, q)
    ensures LeadsOut(e, s, q.typ)
  {
    var qs :| WayOutTo(e, s, qs, t);
    var longer := qs + [q];
    forall i | 0 <= i < |longer| - 1 ensures Follows(e, s, longer[i].typ, longer[i + 1]) {
      if i < |qs| - 1 {
        assert Follows(e, s, qs[i].typ, qs[i + 1]);
      }
    }
    assert WayOutTo(e, s, longer, q.typ);
  }

  lemma {:induction false} StaysStrayed(e: Env, s: Search, strayed: iset<TypeName>, qs: seq<Ref>)
    requires Strayed(e, s, strayed) && WayOut(e, s, qs)
    ensures qs[|qs| - 1].typ in strayed
    decreases |qs|
  {
    if |qs| > 1 {
      var front := qs[..|qs| - 1];
      forall i | 0 <= i < |front| - 1 ensures Follows(e, s, front[i].typ, front[i + 1]) {
        assert Follows(e, s, qs[i].typ, qs[i + 1]);
      }
      StaysStrayed(e, s, strayed, front);
      assert Follows(e, s, qs[|qs| - 2].typ, qs[|qs| - 2 + 1]);
    }
  }

  // ----- a store on which the search strays and returns

  /** The i-th object of the way; all of them are different. */
  function Stop(s: Search, qs: seq<Ref>, i: nat): Object
    requires i <= |qs|
  {
    Object(if i == 0 then s.t else qs[i - 1].typ, i + 1)
  }

  /** The restriction is one that the search follows from some type. */
  predicate IsHopRef(s: Search, q: Ref) {
    if s.mapping.ByUserset? then q.UsersetRef? else q.TypeRef?
  }

  predicate AllHopRefs(s: Search, qs: seq<Ref>) {
    forall i | 0 <= i < |qs| :: IsHopRef(s, qs[i])
  }

  /** The tuple that leads from one object of the way to the next. */
  function Hop(s: Search, qs: seq<Ref>, i: nat): Tuple
    requires i < |qs| && AllHopRefs(s, qs)
  {
    var next := Stop(s, qs, i + 1);
    Tuple(Stop(s, qs, i), EdgeRelation(s), if s.mapping.ByUserset? then Userset(next, qs[i].relation) else User(next))
  }

  /** Every stop leads to the next one, and the last one has what makes the search list it. */
  function Detour(s: Search, qs: seq<Ref>, ends: set<Tuple>): set<Tuple>
    requires AllHopRefs(s, qs)
  {
    (set i | 0 <= i < |qs| :: Hop(s, qs, i)) + ends
  }

  /** The tuples are about the last stop and name the user, or the wildcard that includes the user. */
  ghost predicate IsEnd(s: Search, qs: seq<Ref>, user: Subject, ends: set<Tuple>) {
    forall t :: t in ends ==> t.obj == Stop(s, qs, |qs|) && Includes(t.subject, user)
  }

  /** The usersets of the model's restrictions are defined. */
  ghost predicate DefinedRefs(e: Env) {
    forall t, r, q :: q in Restrictions(e, t, r) && q.UsersetRef? ==> Defined(e, q.typ, q.relation)
  }

  /** Some valid store makes the search list an object for the user. */
  ghost predicate CanBeListed(e: Env, rank: Rank, user: Subject, s: Search)
    requires Defined(e, s.t, s.r)
  {
    exists tuples: set<Tuple>, x: S.Id :: IsListedOn(e, rank, user, s, tuples, x)
  }

  ghost predicate IsListedOn(e: Env, rank: Rank, user: Subject, s: Search, tuples: set<Tuple>, x: S.Id)
    requires Defined(e, s.t, s.r)
  {
    var store := e.(tuples := tuples);
    ValidTuples(store) && Acyclic(store, rank) && Denotes(store, rank, user, s.t, s.r, RewriteOf(e, s.t, s.r), x)
  }

  /** The relation takes the user directly, next to the recursion. */
  ghost predicate TakesUser(e: Env, s: Search, user: Subject)
    requires Defined(e, s.t, s.r)
  {
    user.User? && RefOf(user) in Restrictions(e, s.t, s.r) && HasLeaf(This, RewriteOf(e, s.t, s.r))
  }

  /** Which objects are listed depends on their own tuples only. */
  lemma {:induction false} DenotesMoved(a: Env, b: Env, rank: Rank, user: Subject, t: TypeName, r: RelationName,
                                        rw: Rewrite, x: S.Id, y: S.Id)
    requires SameModel(a, b) && Acyclic(a, rank) && Acyclic(b, rank)
    requires Compilable(a, rank, t, rank(t, r), rw) && Compilable(b, rank, t, rank(t, r), rw)
    requires forall c :: Direct(a, Goal(Object(t, x), c, user)) <==> Direct(b, Goal(Object(t, y), c, user))
    ensures Denotes(a, rank, user, t, r, rw, x) <==> Denotes(b, rank, user, t, r, rw, y)
    decreases rank(t, r), rw
  {
    match rw
    case Computed(c) => DenotesMoved(a, b, rank, user, t, c, RewriteOf(a, t, c), x, y);
    case Union(cs) =>
      forall i | 0 <= i < |cs|
        ensures Denotes(a, rank, user, t, r, cs[i], x) <==> Denotes(b, rank, user, t, r, cs[i], y)
      {
        DenotesMoved(a, b, rank, user, t, r, cs[i], x, y);
      }
    case Intersection(cs) =>
      forall i | 0 <= i < |cs|
        ensures Denotes(a, rank, user, t, r, cs[i], x) <==> Denotes(b, rank, user, t, r, cs[i], y)
      {
        DenotesMoved(a, b, rank, user, t, r, cs[i], x, y);
      }
    case Difference(m, n) =>
      DenotesMoved(a, b, rank, user, t, r, m, x, y);
      DenotesMoved(a, b, rank, user, t, r, n, x, y);
    case _ =>
  }

  /** The relation can be listed for users that it takes. */
  lemma TakersAreListed(e: Env, rank: Rank, user: Subject, s: Search)
    requires Acyclic(e, rank) && Defined(e, s.t, s.r) && TakesUser(e, s, user)
    ensures CanBeListed(e, rank, user, s)
  {
    var tuples := {Tuple(Object(s.t, 1), s.r, user)};
    PathGuard.AcyclicToo(e, e.(tuples := tuples), rank);
    LeafDenotes(e.(tuples := tuples), rank, user, s.t, s.r, RewriteOf(e, s.t, s.r), 1);
    assert IsListedOn(e, rank, user, s, tuples, 1);
  }

  /** What lists an object on some store, moved to the last stop. */
  function MovedTo(tuples: set<Tuple>, from: Object, to: Object, user: Subject): set<Tuple> {
    set t | t in tuples && t.obj == from && Includes(t.subject, user) :: t.(obj := to)
  }

  lemma EndsAreListed(e: Env, rank: Rank, user: Subject, s: Search, qs: seq<Ref>, tuples: set<Tuple>, x: S.Id)
    requires Acyclic(e, rank) && Defined(e, s.t, s.r) && IsListedOn(e, rank, user, s, tuples, x)
    requires WayBack(e, s, qs) && !user.Userset?
    ensures var ends := MovedTo(tuples, Object(s.t, x), Stop(s, qs, |qs|), user);
            IsEnd(s, qs, user, ends) && IsListedOn(e, rank, user, s, ends, |qs| + 1)
  {
    var last := Stop(s, qs, |qs|);
    var ends := MovedTo(tuples, Object(s.t, x), last, user);
    var a, b := e.(tuples := tuples), e.(tuples := ends);
    PathGuard.AcyclicToo(e, b, rank);
    assert last == Object(s.t, |qs| + 1);
    forall t | t in ends ensures IsValidTuple(e, t) {
      var u :| u in tuples && u.obj == Object(s.t, x) && Includes(u.subject, user) && t == u.(obj := last);
    }
    forall c ensures Direct(a, Goal(Object(s.t, x), c, user)) <==> Direct(b, Goal(last, c, user)) {
      DirectMoved(tuples, Object(s.t, x), last, user, c, user);
      if user.User? {
        DirectMoved(tuples, Object(s.t, x), last, user, c, Wildcard(user.obj.typ));
      }
    }
    DenotesMoved(a, b, rank, user, s.t, s.r, RewriteOf(e, s.t, s.r), x, |qs| + 1);
  }

  lemma DirectMoved(tuples: set<Tuple>, from: Object, to: Object, user: Subject, c: RelationName, subject: Subject)
    requires Includes(subject, user)
    ensures Tuple(from, c, subject) in tuples <==> Tuple(to, c, subject) in MovedTo(tuples, from, to, user)
  {
    if Tuple(from, c, subject) in tuples {
      assert Tuple(from, c, subject).(obj := to) in MovedTo(tuples, from, to, user);
    }
  }

  lemma FollowsEach(e: Env, s: Search, qs: seq<Ref>, i: nat)
    requires WayOut(e, s, qs) && i < |qs|
    ensures Follows(e, s, if i == 0 then s.t else qs[i - 1].typ, qs[i]) && IsHopRef(s, qs[i])
  {
    if i > 0 {
      assert Follows(e, s, qs[i - 1].typ, qs[i - 1 + 1]);
    }
  }

  /** The tuple passes the read-side validation. */
  ghost predicate IsValidTuple(e: Env, t: Tuple) {
    && RefOf(t.subject) in Restrictions(e, t.obj.typ, t.relation)
    && (t.subject.Userset? ==> Defined(e, t.subject.obj.typ, t.subject.relation))
  }

  lemma HopIsValid(e: Env, s: Search, qs: seq<Ref>, i: nat)
    requires WayBack(e, s, qs) && AllHopRefs(s, qs) && DefinedRefs(e) && i < |qs|
    ensures IsValidTuple(e, Hop(s, qs, i))
  {
    FollowsEach(e, s, qs, i);
    assert RefOf(Hop(s, qs, i).subject) == qs[i];
  }

  lemma DetourIsValid(e: Env, s: Search, qs: seq<Ref>, ends: set<Tuple>, user: Subject)
    requires WayBack(e, s, qs) && AllHopRefs(s, qs) && DefinedRefs(e)
    requires IsEnd(s, qs, user, ends) && ValidTuples(e.(tuples := ends))
    ensures ValidTuples(e.(tuples := Detour(s, qs, ends)))
    ensures forall t :: t in Detour(s, qs, ends) ==> t.obj.id > 0
  {
    forall t | t in Detour(s, qs, ends) ensures IsValidTuple(e, t) && t.obj.id > 0 {
      if t !in ends {
        var i: nat :| i < |qs| && t == Hop(s, qs, i);
        HopIsValid(e, s, qs, i);
      }
    }
  }

  lemma {:induction false} LeafDenotes(e: Env, rank: Rank, user: Subject, t: TypeName, r: RelationName, rw: Rewrite,
                                       x: nat)
    requires Acyclic(e, rank) && Compilable(e, rank, t, rank(t, r), rw) && HasLeaf(This, rw)
    requires Direct(e, Goal(Object(t, x), r, user))
    ensures Denotes(e, rank, user, t, r, rw, x)
    decreases rw
  {
    if rw != This {
      var i :| 0 <= i < |rw.children| && HasLeaf(This, rw.children[i]);
      LeafDenotes(e, rank, user, t, r, rw.children[i], x);
    }
  }

  /** The tuples of the last stop are those of the end. */
  lemma LastStopHas(s: Search, qs: seq<Ref>, ends: set<Tuple>, t: Tuple)
    requires AllHopRefs(s, qs) && t.obj == Stop(s, qs, |qs|)
    ensures t in Detour(s, qs, ends) <==> t in ends
  {
    forall i: nat | i < |qs| ensures Hop(s, qs, i) != t {
      assert Stop(s, qs, i).id == i + 1 && Stop(s, qs, |qs|).id == |qs| + 1;
    }
  }

  /** The search finds the user at the end of the detour. */
  lemma DetourIsWalked(e: Env, rank: Rank, s: Search, qs: seq<Ref>, ends: set<Tuple>, user: Subject)
    returns (path: seq<Object>)
    requires Acyclic(e, rank) && WayBack(e, s, qs) && AllHopRefs(s, qs) && Defined(e, s.t, s.r)
    requires e.tuples == Detour(s, qs, ends) && IsListedOn(e, rank, user, s, ends, |qs| + 1)
    ensures |path| >= 2 && path[0] == Stop(s, qs, 0) && IsWalk(e, s, path) && Listed(e, rank, user, s, path[|path| - 1])
  {
    path := seq(|qs| + 1, i requires 0 <= i <= |qs| => Stop(s, qs, i));
    forall i: nat | i < |path| - 1 ensures path[i + 1] in Successors(e, s, path[i]) {
      var t := Hop(s, qs, i);
      assert t in e.tuples;
      FollowsEach(e, s, qs, i);
      assert RefOf(t.subject) == qs[i];
    }
    var last, b := Stop(s, qs, |qs|), e.(tuples := ends);
    forall c ensures Direct(e, Goal(last, c, user)) <==> Direct(b, Goal(last, c, user)) {
      LastStopHas(s, qs, ends, Tuple(last, c, user));
      if user.User? {
        LastStopHas(s, qs, ends, Tuple(last, c, Wildcard(user.obj.typ)));
      }
    }
    assert last == Object(s.t, |qs| + 1);
    DenotesMoved(e, b, rank, user, s.t, s.r, RewriteOf(e, s.t, s.r), last.id, last.id);
  }

  /** The only sub-goal at the start of the detour is false. */
  lemma DetourIsFalse(e: Env, rank: Rank, s: Search, qs: seq<Ref>, ends: set<Tuple>, user: Subject, k: Goal)
    requires GroundedModel(e, rank) && WayBack(e, s, qs) && AllHopRefs(s, qs)
    requires e.tuples == Detour(s, qs, ends) && IsEnd(s, qs, user, ends) && Searchable(e, rank, user, s)
    requires k in NextGoals(e, s, Goal(Stop(s, qs, 0), s.r, user))
    ensures IsFalse(e, k)
  {
    LeafIsInTree(e, rank, RefOf(user), s, RewriteOf(e, s.t, s.r));
    FirstHopOnly(e, s, qs, ends, user, k);
    NoPathFails(e, k);
  }

  lemma FirstHopOnly(e: Env, s: Search, qs: seq<Ref>, ends: set<Tuple>, user: Subject, k: Goal)
    requires WayOut(e, s, qs) && AllHopRefs(s, qs) && !user.Userset? && Defined(e, s.t, s.r)
    requires e.tuples == Detour(s, qs, ends) && IsEnd(s, qs, user, ends)
    requires k in NextGoals(e, s, Goal(Stop(s, qs, 0), s.r, user)) && OthersDead(e, RefOf(user), s) && ValidTuples(e)
    ensures !HasPath(e, k) && !k.user.Userset? && Defined(e, k.obj.typ, k.relation)
  {
    var t :| t in e.tuples && t.obj == Stop(s, qs, 0) && t.relation == EdgeRelation(s) && !t.subject.Wildcard? &&
             k == Goal(t.subject.obj, if s.mapping.ByUserset? then t.subject.relation else s.r, user) &&
             (if s.mapping.ByUserset? then t.subject.Userset?
              else t.subject.User? && Defined(e, t.subject.obj.typ, s.r));
    assert t == Hop(s, qs, 0) by {
      forall i: nat | i < |qs| && Stop(s, qs, i).id == 1 ensures i == 0 {}
      assert Stop(s, qs, |qs|).id != 1;
    }
    FollowsEach(e, s, qs, 0);
    assert qs[0] in Refs(e, s);
  }

  // ----- the exact condition

  /** Whatever the store, what the search finds is implied by some sub-goal. */
  ghost predicate AgreesOnAllStores(e: Env, rank: Rank, user: Subject, s: Search)
    requires Acyclic(e, rank) && Defined(e, s.t, s.r)
  {
    forall tuples: set<Tuple> :: ValidTuples(e.(tuples := tuples)) ==> AgreesOn(e, rank, user, s, tuples)
  }

  ghost predicate AgreesOn(e: Env, rank: Rank, user: Subject, s: Search, tuples: set<Tuple>)
    requires Acyclic(e, rank) && Defined(e, s.t, s.r)
  {
    var store := e.(tuples := tuples);
    Acyclic(store, rank) ==>
    forall path: seq<Object> :: IsFind(store, rank, user, s, path) ==>
      exists k :: k in NextGoals(store, s, Goal(path[0], s.r, user)) && IsTrue(store, k)
  }

  /** A walk of the search from an object of the relation to a listed one. */
  ghost predicate IsFind(e: Env, rank: Rank, user: Subject, s: Search, path: seq<Object>)
    requires Acyclic(e, rank) && Defined(e, s.t, s.r)
  {
    |path| >= 2 && path[0].typ == s.t && IsWalk(e, s, path) && Listed(e, rank, user, s, path[|path| - 1])
  }

  /** Either strategy agrees with the reference strategy on every store if and only if the model has no way out
      of the relation and back to its type, or no object can be listed for the user at all. */
  lemma RecursiveAgreesIff(e: Env, rank: Rank, user: Subject, s: Search)
    requires Acyclic(e, rank) && PathClosed(e) && DefinedRefs(e) && Searchable(e, rank, user, s)
    ensures AgreesOnAllStores(e, rank, user, s) <==> NoReturn(e, s) || !CanBeListed(e, rank, user, s)
  {
    NoReturnIffNoWayBack(e, s);
    if NoReturn(e, s) {
      forall tuples: set<Tuple> | ValidTuples(e.(tuples := tuples)) ensures AgreesOn(e, rank, user, s, tuples) {
        AgreesWithoutReturn(e, rank, user, s, tuples);
      }
    } else if tuples: set<Tuple>, x: S.Id :| IsListedOn(e, rank, user, s, tuples, x) {
      var qs :| WayBack(e, s, qs);
      EndsAreListed(e, rank, user, s, qs, tuples, x);
      DisagreesOnDetour(e, rank, user, s, qs, MovedTo(tuples, Object(s.t, x), Stop(s, qs, |qs|), user));
    } else {
      forall tuples: set<Tuple> | ValidTuples(e.(tuples := tuples)) ensures AgreesOn(e, rank, user, s, tuples) {
        NothingIsFound(e, rank, user, s, tuples);
      }
    }
  }

  lemma NothingIsFound(e: Env, rank: Rank, user: Subject, s: Search, tuples: set<Tuple>)
    requires Acyclic(e, rank) && Defined(e, s.t, s.r) && !CanBeListed(e, rank, user, s)
    requires ValidTuples(e.(tuples := tuples))
    ensures AgreesOn(e, rank, user, s, tuples)
  {
    var store := e.(tuples := tuples);
    if Acyclic(store, rank) {
      forall o | Listed(store, rank, user, s, o) ensures IsListedOn(e, rank, user, s, tuples, o.id) {}
    }
  }

  lemma AgreesWithoutReturn(e: Env, rank: Rank, user: Subject, s: Search, tuples: set<Tuple>)
    requires Acyclic(e, rank) && PathClosed(e) && Searchable(e, rank, user, s) && NoReturn(e, s)
    requires ValidTuples(e.(tuples := tuples))
    ensures AgreesOn(e, rank, user, s, tuples)
  {
    var store := e.(tuples := tuples);
    SearchableSame(e, store, rank, user, s);
    PathClosedSame(e, store);
    NoReturnSame(e, store, s);
    forall path: seq<Object> | IsFind(store, rank, user, s, path)
      ensures exists k :: k in NextGoals(store, s, Goal(path[0], s.r, user)) && IsTrue(store, k)
    {
      WalkHolds(store, rank, user, s, path);
    }
  }

  lemma DisagreesOnDetour(e: Env, rank: Rank, user: Subject, s: Search, qs: seq<Ref>, ends: set<Tuple>)
    requires Acyclic(e, rank) && PathClosed(e) && DefinedRefs(e) && Searchable(e, rank, user, s) && WayBack(e, s, qs)
    requires IsEnd(s, qs, user, ends) && IsListedOn(e, rank, user, s, ends, |qs| + 1)
    ensures !AgreesOnAllStores(e, rank, user, s)
  {
    forall i: nat | i < |qs| { FollowsEach(e, s, qs, i); }
    var tuples := Detour(s, qs, ends);
    var store := e.(tuples := tuples);
    DetourIsValid(e, s, qs, ends, user);
    SearchableSame(e, store, rank, user, s);
    PathClosedSame(e, store);
    WayBackSame(e, store, s, qs);
    assert store.(tuples := ends) == e.(tuples := ends);
    var path := DetourIsWalked(store, rank, s, qs, ends, user);
    forall k | k in NextGoals(store, s, Goal(path[0], s.r, user)) ensures !IsTrue(store, k) {
      DetourIsFalse(store, rank, s, qs, ends, user, k);
      if IsTrue(store, k) {
        TrueIsNotFalse(store, k);
      }
    }
    assert !AgreesOn(e, rank, user, s, tuples);
  }

  lemma WayBackSame(a: Env, b: Env, s: Search, qs: seq<Ref>)
    requires SameModel(a, b) && WayBack(a, s, qs)
    ensures WayBack(b, s, qs)
  {
    forall i: nat | i < |qs| ensures Follows(b, s, if i == 0 then s.t else qs[i - 1].typ, qs[i]) {
      FollowsEach(a, s, qs, i);
    }
    forall i | 0 <= i < |qs| - 1 ensures Follows(b, s, qs[i].typ, qs[i + 1]) {
      assert Follows(b, s, qs[i + 1 - 1].typ, qs[i + 1]);
    }
  }

  // ----- runs that go astray

  lemma {:induction false} DenotesDirect(e: Env, rank: Rank, user: Subject, t: TypeName, r: RelationName, rw: Rewrite,
                                         x: nat)
    returns (c: RelationName)
    requires Acyclic(e, rank) && Compilable(e, rank, t, rank(t, r), rw) && Denotes(e, rank, user, t, r, rw, x)
    ensures Direct(e, Goal(Object(t, x), c, user))
    decreases rank(t, r), rw
  {
    match rw
    case This => c := r;
    case Computed(d) => c := DenotesDirect(e, rank, user, t, d, RewriteOf(e, t, d), x);
    case Union(cs) =>
      var i :| 0 <= i < |cs| && Denotes(e, rank, user, t, r, cs[i], x);
      c := DenotesDirect(e, rank, user, t, r, cs[i], x);
    case Intersection(cs) => c := DenotesDirect(e, rank, user, t, r, cs[0], x);
    case Difference(b, s) => c := DenotesDirect(e, rank, user, t, r, b, x);
  }

  /** An object that is not listed and has no true sub-goal does not have the relation. */
  lemma {:induction false} TreeIsFalse(e: Env, rank: Rank, user: Subject, s: Search, o: Object, rw: Rewrite)
    requires GroundedModel(e, rank) && !user.Userset? && Compilable(e, rank, s.t, rank(s.t, s.r), rw)
    requires UnionTree(e, rank, RefOf(user), s, rw) && o.typ == s.t && !Denotes(e, rank, user, s.t, s.r, rw, o.id)
    requires forall k :: k in NextGoals(e, s, Goal(o, s.r, user)) ==> IsFalse(e, k)
    ensures IsFalseRw(e, Goal(o, s.r, user), rw)
    decreases rw
  {
    var g := Goal(o, s.r, user);
    assert o == Object(s.t, o.id);
    if rw == LeafOf(s) {
      var n := CommonFails(e, NextGoals(e, s, g));
      assert FailsRw(e, n, iset{}, g, rw);
    } else if rw.Union? {
      forall i | 0 <= i < |rw.children| ensures IsFalseRw(e, g, rw.children[i]) {
        TreeIsFalse(e, rank, user, s, o, rw.children[i]);
      }
      UnionMeaning(e, g, rw.children);
    } else {
      WeightOneMeaning(e, rank, user, s.t, s.r, rw, o.id);
    }
  }

  /** The start of the detour does not have the relation. */
  lemma StartIsFalse(e: Env, rank: Rank, s: Search, qs: seq<Ref>, ends: set<Tuple>, user: Subject)
    requires GroundedModel(e, rank) && WayBack(e, s, qs) && AllHopRefs(s, qs)
    requires e.tuples == Detour(s, qs, ends) && IsEnd(s, qs, user, ends) && Searchable(e, rank, user, s)
    requires user != User(Stop(s, qs, 1))
    ensures IsFalse(e, Goal(Stop(s, qs, 0), s.r, user))
  {
    var o := Stop(s, qs, 0);
    if Denotes(e, rank, user, s.t, s.r, RewriteOf(e, s.t, s.r), o.id) {
      var c := DenotesDirect(e, rank, user, s.t, s.r, RewriteOf(e, s.t, s.r), o.id);
      StartIsNotDirect(e, s, qs, ends, user, c);
      assert false;
    }
    forall k | k in NextGoals(e, s, Goal(o, s.r, user)) ensures IsFalse(e, k) {
      DetourIsFalse(e, rank, s, qs, ends, user, k);
    }
    TreeIsFalse(e, rank, user, s, o, RewriteOf(e, s.t, s.r));
    GoalFalse(e, Goal(o, s.r, user));
  }

  lemma StartIsNotDirect(e: Env, s: Search, qs: seq<Ref>, ends: set<Tuple>, user: Subject, c: RelationName)
    requires AllHopRefs(s, qs) && qs != [] && e.tuples == Detour(s, qs, ends) && IsEnd(s, qs, user, ends)
    requires !user.Userset? && user != User(Stop(s, qs, 1))
    ensures !Direct(e, Goal(Stop(s, qs, 0), c, user))
  {
    forall t | t in e.tuples && t.obj == Stop(s, qs, 0) ensures t.subject != user && !t.subject.Wildcard? {
      assert Stop(s, qs, |qs|).id != 1;
      var i: nat :| i < |qs| && t == Hop(s, qs, i);
      assert i == 0 by { assert Stop(s, qs, i).id == i + 1; }
    }
  }

  /** The strategy is offered for the relation, and its reads are right. */
  ghost predicate IsOffered(e: Env, rank: Rank, store: Store, s: Search, user: Subject) {
    && Grounded(e, rank, store) && Searchable(e, rank, user, s) && ReadableSearch(e, rank, store, user, s)
    && (s.mapping.ByParent? ==> SelfRef(s) in Refs(e, s))
  }

  /** The store is a detour that leads to an object that is listed for the user. */
  ghost predicate IsDetour(e: Env, rank: Rank, s: Search, qs: seq<Ref>, ends: set<Tuple>, user: Subject)
    requires Defined(e, s.t, s.r)
  {
    && WayBack(e, s, qs) && AllHopRefs(s, qs) && e.tuples == Detour(s, qs, ends)
    && IsEnd(s, qs, user, ends) && IsListedOn(e, rank, user, s, ends, |qs| + 1) && user != User(Stop(s, qs, 1))
  }

  /** On the detour the strategy allows, without the flag of a cycle, although the goal is false. */
  method RunAstray(e: Env, ghost rank: Rank, store: Store, s: Search, ghost qs: seq<Ref>, ghost ends: set<Tuple>,
                   user: Subject, maxDepth: nat)
    returns (r: Outcome)
    requires IsOffered(e, rank, store, s, user) && IsDetour(e, rank, s, qs, ends, user)
    requires maxDepth > 0 && EndsInTime(e, s, maxDepth, Object(s.t, 1))
    ensures r == Answer(true, false) && IsFalse(e, Goal(Object(s.t, 1), s.r, user))
  {
    ghost var path, closed;
    var g := Goal(Object(s.t, 1), s.r, user);
    assert g.obj == Stop(s, qs, 0);
    r, path, closed := RunSearch(e, rank, store, s, g, 0, maxDepth, false);
    ghost var walk := DetourIsWalked(e, rank, s, qs, ends, user);
    if r.Answer? && !r.allowed {
      WalkStaysIn(e, s, closed, walk);
    }
    StartIsFalse(e, rank, s, qs, ends, user);
  }

  /** A walk from the start of a closed set ends in it. */
  lemma {:induction false} WalkStaysIn(e: Env, s: Search, closed: set<Object>, path: seq<Object>)
    requires |path| >= 2 && IsWalk(e, s, path) && Successors(e, s, path[0]) <= closed && IsClosed(e, s, closed)
    ensures path[|path| - 1] in closed
    decreases |path|
  {
    assert path[0 + 1] in Successors(e, s, path[0]);
    if |path| > 2 {
      var rest := path[1..];
      forall i | 0 <= i < |rest| - 1 ensures rest[i + 1] in Successors(e, s, rest[i]) {
        assert path[i + 1 + 1] in Successors(e, s, path[i + 1]);
      }
      WalkStaysIn(e, s, closed, rest);
    }
  }
}
