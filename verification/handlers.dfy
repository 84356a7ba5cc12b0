/** The handlers that one request is split into (check.go, default_resolver.go), and how the meaning of
    a goal follows from what its handlers vouch for. */
module Handlers {
  import opened Model
  import opened Semantics
  import opened Reducers
  import opened Claims
  import opened FastPath
  import opened FastPathMeaning
  import opened Weight2
  import opened LeafReads
  import opened Recursive
  import opened RecursiveMeaning

  /** The parts of a request that its sub-problems inherit and that its cache key is built from. */
  datatype Scope = Scope(store: string, authorizationModel: string, contextual: set<Tuple>, context: string)

  type Time = nat

  /** What the type system answers about the strategies a relation admits for a type of users. */
  datatype TypeSystem = TypeSystem(
    usersetUseWeight2: (TypeName, RelationName, TypeName, Ref) -> bool,
    usersetUseRecursive: (TypeName, RelationName, TypeName) -> bool,
    ttuUseWeight2: (TypeName, RelationName, TypeName, Rewrite) -> bool,
    ttuUseRecursive: (TypeName, RelationName, TypeName, Rewrite) -> bool)

  /** The model and the store that a scope selects; reads of a faulty store may fail. */
  datatype World = World(env: Env, rank: Rank, store: Store, types: TypeSystem, faulty: bool)

  datatype Request = Request(scope: Scope, goal: Goal, visited: set<Goal>, depth: nat, higherConsistency: bool,
      lastInvalidation: Time)
  {
    /** The request for a sub-problem; the visited goals are copied, so siblings do not share them. */
    function Child(g: Goal): Request { this.(goal := g, depth := depth + 1) }
  }

  function UserType(s: Subject): TypeName {
    match s
    case User(o) => o.typ
    case Wildcard(t) => t
    case Userset(o, _) => o.typ
  }

  /** Listing the relation of the reference decides its goals for the user. */
  ghost predicate CanList(w: World, user: Subject, q: Ref)
    requires q.UsersetRef?
  {
    && Grounded(w.env, w.rank, w.store) && Listable(w.env, w.rank, user, q.typ, q.relation)
    && Readable(w.env, w.rank, w.store, user, q.typ, q.relation)
  }

  ghost predicate CanListParents(w: World, user: Subject, t: TypeName, ts: RelationName, c: RelationName) {
    && Grounded(w.env, w.rank, w.store) && ListableParents(w.env, w.rank, user, t, ts, c)
    && ReadableParents(w.env, w.rank, w.store, user, Restrictions(w.env, t, ts), c)
  }

  /** A search decides the sub-goals for the user. */
  ghost predicate CanSearch(w: World, user: Subject, s: Search) {
    && Grounded(w.env, w.rank, w.store) && Searchable(w.env, w.rank, user, s) && NoReturn(w.env, s)
    && ReadableSearch(w.env, w.rank, w.store, user, s)
  }

  /** The strategies are offered only where they can decide.  Nothing is asked of relations and of reads that no
      strategy offered to users of this type needs. */
  ghost predicate SoundTypes(w: World, user: Subject) {
    var ut := UserType(user);
    && (forall t, r, q :: w.types.usersetUseWeight2(t, r, ut, q) && q.UsersetRef? ==> CanList(w, user, q))
    && (forall t, r :: w.types.usersetUseRecursive(t, r, ut) ==> CanSearch(w, user, Search(ByUserset, t, r)))
    && (forall t, r, ts, c :: w.types.ttuUseWeight2(t, r, ut, TupleToUserset(ts, c)) ==>
          CanListParents(w, user, t, ts, c))
    && (forall t, r, ts, c :: w.types.ttuUseRecursive(t, r, ut, TupleToUserset(ts, c)) ==>
          var s := Search(ByParent(ts), t, r);
          c == r && CanSearch(w, user, s) && SelfRef(s) in Refs(w.env, s))
  }

  /** Names a world and a user whose assumptions a proof is about to use. */
  predicate Unfold(w: World, user: Subject) { true }

  /** What the answers about one user rely on.  The list is long, so a proof sees it only for a world it
      unfolds. */
  ghost predicate WellFormed(w: World, user: Subject) {
    forall v, u {:trigger Unfold(v, u)} :: v == w && u == user ==> Assumptions(v, u)
  }

  ghost predicate Assumptions(w: World, user: Subject) {
    ValidTuples(w.env) && (!user.Userset? ==> SoundTypes(w, user))
  }

  lemma HasValidTuples(w: World, user: Subject)
    requires WellFormed(w, user)
    ensures ValidTuples(w.env)
  {
    assert Unfold(w, user);
  }

  /** The relations of the checked object that the current path has not met. */
  function Unvisited(e: Env, req: Request): set<(TypeName, RelationName)> {
    set k | k in e.relations && k.0 == req.goal.obj.typ && Goal(req.goal.obj, k.1, req.goal.user) !in req.visited
  }

  // ----- the handlers

  /** One unit of work that a reducer waits for. */
  datatype Handler =
    | Operand(rw: Rewrite)
    | DirectTuple
    | PublicTuple
    | UsersetTuples
    | UsersetGroup(refs: seq<Ref>)
    | SubProblem(goal: Goal)

  /** What a handler decides. */
  ghost function HandlerClaim(e: Env, visited: set<Goal>, g: Goal, h: Handler): Claim {
    match h
    case Operand(rw) => RewriteClaim(e, visited, g, rw)
    case DirectTuple => ReadClaim(Tuple(g.obj, g.relation, g.user) in e.tuples)
    case PublicTuple => ReadClaim(PublicRead(e, g))
    case UsersetTuples => SomeClaim(e, visited, AllUsersets(e, g))
    case UsersetGroup(refs) => SomeClaim(e, visited, UsersetGoals(e, g, refs))
    case SubProblem(k) => GoalClaim(e, visited, k)
  }

  ghost function ClaimsOf(e: Env, visited: set<Goal>, g: Goal, hs: seq<Handler>): (claims: seq<Claim>)
    ensures |claims| == |hs|
  {
    if hs == [] then []
    else ClaimsOf(e, visited, g, hs[..|hs| - 1]) + [HandlerClaim(e, visited, g, hs[|hs| - 1])]
  }

  lemma {:induction false} ClaimAt(e: Env, visited: set<Goal>, g: Goal, hs: seq<Handler>, i: nat)
    requires i < |hs|
    ensures ClaimsOf(e, visited, g, hs)[i] == HandlerClaim(e, visited, g, hs[i])
    decreases |hs|
  {
    if i < |hs| - 1 {
      ClaimAt(e, visited, g, hs[..|hs| - 1], i);
    }
  }

  lemma ClaimsAre(e: Env, visited: set<Goal>, g: Goal, hs: seq<Handler>)
    ensures forall i :: 0 <= i < |hs| ==> ClaimsOf(e, visited, g, hs)[i] == HandlerClaim(e, visited, g, hs[i])
  {
    forall i | 0 <= i < |hs| ensures ClaimsOf(e, visited, g, hs)[i] == HandlerClaim(e, visited, g, hs[i]) {
      ClaimAt(e, visited, g, hs, i);
    }
  }

  function Operands(cs: seq<Rewrite>): (hs: seq<Handler>)
    ensures |hs| == |cs| && forall i :: 0 <= i < |cs| ==> hs[i] == Operand(cs[i])
  {
    seq(|cs|, i requires 0 <= i < |cs| => Operand(cs[i]))
  }

  function SubProblems(goals: seq<Goal>): (hs: seq<Handler>)
    ensures |hs| == |goals| && forall i :: 0 <= i < |goals| ==> hs[i] == SubProblem(goals[i])
  {
    seq(|goals|, i requires 0 <= i < |goals| => SubProblem(goals[i]))
  }

  function Groups(groups: seq<seq<Ref>>): (hs: seq<Handler>)
    ensures |hs| == |groups| && forall i :: 0 <= i < |groups| ==> hs[i] == UsersetGroup(groups[i])
  {
    seq(|groups|, i requires 0 <= i < |groups| => UsersetGroup(groups[i]))
  }

  /** The handlers that a direct relation needs for the user of the goal. */
  function DirectHandlers(e: Env, g: Goal): seq<Handler> {
    var refs := Restrictions(e, g.obj.typ, g.relation);
    var source := if g.user.Userset? then RefOf(g.user) else TypeRef(UserType(g.user));
    (if source in refs then [DirectTuple] else []) +
    (if !g.user.Userset? && WildcardRef(UserType(g.user)) in refs then [PublicTuple] else []) +
    (if UsersetRefs(refs) != [] then [UsersetTuples] else [])
  }

  lemma DirectHandlersAre(e: Env, g: Goal)
    ensures forall i :: 0 <= i < |DirectHandlers(e, g)| ==>
            DirectHandlers(e, g)[i] in {DirectTuple, PublicTuple, UsersetTuples}
  {}

  predicate PublicRead(e: Env, g: Goal) {
    Tuple(g.obj, g.relation, Wildcard(UserType(g.user))) in e.tuples
  }

  predicate IsLight(types: TypeSystem, g: Goal, q: Ref) {
    types.usersetUseWeight2(g.obj.typ, g.relation, UserType(g.user), q)
  }

  /** One group for every restriction that has weight two, and one for all the others. */
  function RefGroups(types: TypeSystem, g: Goal, refs: seq<Ref>): seq<seq<Ref>> {
    var rest := HeavyRefs(types, g, refs);
    LightGroups(types, g, refs) + if rest == [] then [] else [rest]
  }

  function LightGroups(types: TypeSystem, g: Goal, refs: seq<Ref>): (r: seq<seq<Ref>>)
    ensures forall q :: q in refs && IsLight(types, g, q) ==> [q] in r
    ensures forall group :: group in r ==> |group| == 1 && group[0] in refs
  {
    if refs == [] then []
    else if IsLight(types, g, refs[0]) then [[refs[0]]] + LightGroups(types, g, refs[1..])
    else LightGroups(types, g, refs[1..])
  }

  function HeavyRefs(types: TypeSystem, g: Goal, refs: seq<Ref>): (r: seq<Ref>)
    ensures forall q :: q in r <==> q in refs && !IsLight(types, g, q)
  {
    if refs == [] then []
    else if IsLight(types, g, refs[0]) then HeavyRefs(types, g, refs[1..])
    else [refs[0]] + HeavyRefs(types, g, refs[1..])
  }

  // ----- what the handlers of one request cover

  lemma UnionOfOperands(e: Env, visited: set<Goal>, g: Goal, cs: seq<Rewrite>, outs: seq<Outcome>, r: Outcome)
    requires AllMeet(outs, ClaimsOf(e, visited, g, Operands(cs))) && UnionResult(outs, r)
    ensures Meets(r, RewriteClaim(e, visited, g, Union(cs)))
  {
    OperatorClaims(e, visited, g, cs);
    var claims := ClaimsOf(e, visited, g, Operands(cs));
    ClaimsAre(e, visited, g, Operands(cs));
    if forall i :: 0 <= i < |claims| ==> claims[i].fails {
      forall i | 0 <= i < |cs| ensures IsFalseRw(e, g, cs[i]) {
        assert claims[i].fails;
      }
    }
    if DueRw(e, visited, g, Union(cs)) {
      var i :| 0 <= i < |cs| && DueRw(e, visited, g, cs[i]);
      assert claims[i].due;
    }
    UnionMeets(outs, claims, r, RewriteClaim(e, visited, g, Union(cs)));
  }

  lemma IntersectionOfOperands(e: Env, visited: set<Goal>, g: Goal, cs: seq<Rewrite>, outs: seq<Outcome>, r: Outcome)
    requires AllMeet(outs, ClaimsOf(e, visited, g, Operands(cs))) && IntersectionResult(outs, r)
    ensures Meets(r, RewriteClaim(e, visited, g, Intersection(cs)))
  {
    OperatorClaims(e, visited, g, cs);
    var claims := ClaimsOf(e, visited, g, Operands(cs));
    ClaimsAre(e, visited, g, Operands(cs));
    if |claims| >= 2 && forall i :: 0 <= i < |claims| ==> claims[i].holds {
      forall i | 0 <= i < |cs| ensures IsTrueRw(e, g, cs[i]) {
        assert claims[i].holds;
      }
    }
    IntersectionMeets(outs, claims, r, RewriteClaim(e, visited, g, Intersection(cs)));
  }

  lemma ExclusionOfOperands(e: Env, visited: set<Goal>, g: Goal, b: Rewrite, s: Rewrite, base: Outcome, sub: Outcome,
                            r: Outcome)
    requires Meets(base, RewriteClaim(e, visited, g, b)) && Meets(sub, RewriteClaim(e, visited, g, s))
    requires ExclusionResult(base, sub, r) && !ExclusionFree(e)
    ensures Meets(r, RewriteClaim(e, visited, g, Difference(b, s)))
  {
    DifferenceMeaning(e, g, b, s);
    if n: nat :| LooplessRw(e, n, visited, g, Difference(b, s)) {
      assert LooplessRw(e, n, visited, g, b) && LooplessRw(e, n, visited, g, s);
    }
    ExclusionMeets(base, sub, RewriteClaim(e, visited, g, b), RewriteClaim(e, visited, g, s), r,
                   RewriteClaim(e, visited, g, Difference(b, s)));
  }

  /** If an exclusion is true and both of its operands have been answered, it is denied if and only if one
      of the two answers is under the flag of a cycle, and then it carries that flag. */
  lemma ExclusionDeniedIff(e: Env, visited: set<Goal>, g: Goal, b: Rewrite, s: Rewrite, base: Outcome, sub: Outcome,
                           r: Outcome)
    requires Meets(base, RewriteClaim(e, visited, g, b)) && Meets(sub, RewriteClaim(e, visited, g, s))
    requires IsTrueRw(e, g, b) && IsFalseRw(e, g, s) && base.Answer? && sub.Answer? && ExclusionResult(base, sub, r)
    ensures r == if base.cycle || sub.cycle then Answer(false, true) else Answer(true, false)
  {
    TrueRwIsNotFalseRw(e, g, b);
    if IsTrueRw(e, g, s) {
      TrueRwIsNotFalseRw(e, g, s);
    }
  }

  /** The sub-problems of a strategy decide the claim that one of the goals holds; if the read that lists
      the goals was cut short, there is one error more. */
  lemma UnionOfGoals(e: Env, visited: set<Goal>, g: Goal, goals: set<Goal>, read: seq<Goal>, complete: bool,
                     outs: seq<Outcome>, r: Outcome)
    requires AllMeet(outs, ClaimsOf(e, visited, g, SubProblems(read)))
    requires UnionResult(if complete then outs else outs + [Error], r)
    requires forall k :: k in read ==> k in goals
    requires complete ==> forall k :: k in goals ==> k in read
    ensures Meets(r, SomeClaim(e, visited, goals))
  {
    var claims := ClaimsOf(e, visited, g, SubProblems(read));
    ClaimsAre(e, visited, g, SubProblems(read));
    forall i | 0 <= i < |claims| && claims[i].holds ensures SomeClaim(e, visited, goals).holds {
      assert read[i] in goals;
    }
    if complete {
      AllGoalsRead(e, visited, goals, read, claims);
      UnionMeets(outs, claims, r, SomeClaim(e, visited, goals));
    } else {
      UnionWithErrorMeets(outs, claims, r, SomeClaim(e, visited, goals));
    }
  }

  lemma AllGoalsRead(e: Env, visited: set<Goal>, goals: set<Goal>, read: seq<Goal>, claims: seq<Claim>)
    requires |claims| == |read| && forall i :: 0 <= i < |read| ==> claims[i] == GoalClaim(e, visited, read[i])
    requires forall k :: k in goals ==> k in read
    ensures (forall i :: 0 <= i < |claims| ==> claims[i].fails) ==> SomeClaim(e, visited, goals).fails
    ensures SomeClaim(e, visited, goals).due ==> exists i :: 0 <= i < |claims| && claims[i].due
    ensures (forall k :: k in read ==> k in goals) && SomeClaim(e, visited, goals).loopless ==>
              forall i :: 0 <= i < |claims| ==> claims[i].loopless
  {
    if forall i :: 0 <= i < |claims| ==> claims[i].fails {
      forall k | k in goals ensures IsFalse(e, k) {
        var i :| 0 <= i < |read| && read[i] == k;
        assert claims[i].fails;
      }
    }
    if DueSome(e, visited, goals) {
      var k :| k in goals && Due(e, visited, k);
      var i :| 0 <= i < |read| && read[i] == k;
      assert claims[i].due;
    }
  }

  /** The handlers decide the direct rewrite: those that the restrictions rule out could not have
      found anything. */
  lemma UnionOfDirectHandlers(e: Env, visited: set<Goal>, g: Goal, outs: seq<Outcome>, r: Outcome)
    requires ValidTuples(e) && AllMeet(outs, ClaimsOf(e, visited, g, DirectHandlers(e, g))) && UnionResult(outs, r)
    ensures Meets(r, RewriteClaim(e, visited, g, This))
  {
    UsersetsCover(e, visited, g);
    if Direct(e, g) {
      var h := ReadsCover(e, g);
      assert FindsTuple(e, g, h);
    }
    UnionOfDirect(e, visited, g, DirectHandlers(e, g), outs, r);
  }

  ghost predicate FindsTuple(e: Env, g: Goal, h: Handler) {
    (h == DirectTuple && Tuple(g.obj, g.relation, g.user) in e.tuples) || (h == PublicTuple && PublicRead(e, g))
  }

  /** The handlers are direct ones, and those that could find something are among them. */
  ghost predicate AreDirect(e: Env, g: Goal, handlers: seq<Handler>) {
    && (forall h :: h in handlers ==> h == DirectTuple || (h == PublicTuple && !g.user.Userset?) || h == UsersetTuples)
    && (Direct(e, g) ==> exists h :: h in handlers && FindsTuple(e, g, h))
    && (AllUsersets(e, g) != {} ==> UsersetTuples in handlers)
  }

  lemma UnionOfDirect(e: Env, visited: set<Goal>, g: Goal, handlers: seq<Handler>, outs: seq<Outcome>, r: Outcome)
    requires AllMeet(outs, ClaimsOf(e, visited, g, handlers)) && UnionResult(outs, r) && AreDirect(e, g, handlers)
    ensures Meets(r, RewriteClaim(e, visited, g, This))
  {
    var claims, c := ClaimsOf(e, visited, g, handlers), RewriteClaim(e, visited, g, This);
    ThisMeaning(e, visited, g);
    DirectClaimsHold(e, visited, g, handlers);
    DirectClaimsFail(e, visited, g, handlers);
    DirectClaimsLoopless(e, visited, g, handlers);
    UnionMeets(outs, claims, r, c);
  }

  lemma DirectClaimsHold(e: Env, visited: set<Goal>, g: Goal, handlers: seq<Handler>)
    requires AreDirect(e, g, handlers)
    ensures forall i :: 0 <= i < |handlers| && ClaimsOf(e, visited, g, handlers)[i].holds ==>
              Direct(e, g) || SomeClaim(e, visited, AllUsersets(e, g)).holds
    ensures Direct(e, g) || DueSome(e, visited, AllUsersets(e, g)) ==>
              exists i :: 0 <= i < |handlers| && ClaimsOf(e, visited, g, handlers)[i].due
  {
    var claims, users := ClaimsOf(e, visited, g, handlers), SomeClaim(e, visited, AllUsersets(e, g));
    ClaimsAre(e, visited, g, handlers);
    forall i | 0 <= i < |claims| && claims[i].holds ensures Direct(e, g) || users.holds {
      assert handlers[i] in handlers;
    }
    if Direct(e, g) {
      var h :| h in handlers && FindsTuple(e, g, h);
      var i :| 0 <= i < |handlers| && handlers[i] == h;
      assert claims[i].due;
    } else if DueSome(e, visited, AllUsersets(e, g)) {
      var i :| 0 <= i < |handlers| && handlers[i] == UsersetTuples;
      assert claims[i].due;
    }
  }

  lemma DirectClaimsFail(e: Env, visited: set<Goal>, g: Goal, handlers: seq<Handler>)
    requires AreDirect(e, g, handlers)
    ensures (forall i :: 0 <= i < |handlers| ==> ClaimsOf(e, visited, g, handlers)[i].fails) ==>
              !Direct(e, g) && SomeClaim(e, visited, AllUsersets(e, g)).fails
  {
    var claims := ClaimsOf(e, visited, g, handlers);
    ClaimsAre(e, visited, g, handlers);
    if forall i :: 0 <= i < |claims| ==> claims[i].fails {
      forall h | h in handlers ensures HandlerClaim(e, visited, g, h).fails && !FindsTuple(e, g, h) {
        var i :| 0 <= i < |handlers| && handlers[i] == h;
        assert claims[i].fails;
      }
      if AllUsersets(e, g) != {} {
        assert HandlerClaim(e, visited, g, UsersetTuples).fails;
      }
    }
  }

  lemma DirectClaimsLoopless(e: Env, visited: set<Goal>, g: Goal, handlers: seq<Handler>)
    requires AreDirect(e, g, handlers)
    ensures IsLooplessRw(e, visited, g, This) ==>
              forall i :: 0 <= i < |handlers| ==> ClaimsOf(e, visited, g, handlers)[i].loopless
  {
    ClaimsAre(e, visited, g, handlers);
    ThisMeaning(e, visited, g);
    forall i | 0 <= i < |handlers| ensures handlers[i] in {DirectTuple, PublicTuple, UsersetTuples} {
      assert handlers[i] in handlers;
    }
  }

  lemma ReadsCover(e: Env, g: Goal) returns (h: Handler)
    requires ValidTuples(e) && Direct(e, g)
    ensures h in DirectHandlers(e, g)
    ensures (h == DirectTuple && Tuple(g.obj, g.relation, g.user) in e.tuples) || (h == PublicTuple && PublicRead(e, g))
  {
    if Tuple(g.obj, g.relation, g.user) in e.tuples && !g.user.Wildcard? {
      h := DirectTuple;
    } else {
      assert PublicRead(e, g);
      assert RefOf(Wildcard(UserType(g.user))) in Restrictions(e, g.obj.typ, g.relation);
      h := PublicTuple;
    }
  }

  lemma UsersetsCover(e: Env, visited: set<Goal>, g: Goal)
    ensures UsersetTuples !in DirectHandlers(e, g) ==> AllUsersets(e, g) == {}
  {
    if k :| k in AllUsersets(e, g) {
      var t :| t in e.tuples && t.obj == g.obj && t.relation == g.relation && t.subject.Userset? &&
               RefOf(t.subject) in Restrictions(e, g.obj.typ, g.relation);
      assert RefOf(t.subject) in UsersetRefs(Restrictions(e, g.obj.typ, g.relation));
    }
  }

  /** The groups of restrictions decide all userset goals between them. */
  lemma UnionOfGroups(e: Env, types: TypeSystem, visited: set<Goal>, g: Goal, groups: seq<seq<Ref>>, outs: seq<Outcome>,
                      r: Outcome)
    requires groups == RefGroups(types, g, UsersetRefs(Restrictions(e, g.obj.typ, g.relation)))
    requires AllMeet(outs, ClaimsOf(e, visited, g, Groups(groups))) && UnionResult(outs, r)
    ensures Meets(r, SomeClaim(e, visited, AllUsersets(e, g)))
  {
    var all := AllUsersets(e, g);
    ClaimsAre(e, visited, g, Groups(groups));
    var parts := seq(|groups|, i requires 0 <= i < |groups| => UsersetGoals(e, g, groups[i]));
    forall i, k | 0 <= i < |parts| && k in parts[i] ensures k in all {
      GroupIsWithin(types, g, UsersetRefs(Restrictions(e, g.obj.typ, g.relation)), groups[i]);
    }
    forall k | k in all ensures exists i :: 0 <= i < |parts| && k in parts[i] {
      var i := GroupOf(e, types, g, k);
      assert k in parts[i];
    }
    UnionOfParts(e, visited, all, parts, outs, r);
  }

  lemma UnionOfParts(e: Env, visited: set<Goal>, all: set<Goal>, parts: seq<set<Goal>>, outs: seq<Outcome>, r: Outcome)
    requires |outs| == |parts| && UnionResult(outs, r)
    requires forall i :: 0 <= i < |parts| ==> Meets(outs[i], SomeClaim(e, visited, parts[i]))
    requires Within(parts, all) && Covers(parts, all)
    ensures Meets(r, SomeClaim(e, visited, all))
  {
    var claims := PartClaims(e, visited, parts);
    PartsHold(e, visited, all, parts, claims);
    PartsFail(e, visited, all, parts, claims);
    PartsDue(e, visited, all, parts, claims);
    PartsLoopless(e, visited, all, parts, claims);
    UnionMeets(outs, claims, r, SomeClaim(e, visited, all));
  }

  ghost predicate Within(parts: seq<set<Goal>>, all: set<Goal>) {
    forall i, k :: 0 <= i < |parts| && k in parts[i] ==> k in all
  }

  ghost predicate Covers(parts: seq<set<Goal>>, all: set<Goal>) {
    forall k :: k in all ==> exists i :: 0 <= i < |parts| && k in parts[i]
  }

  ghost function PartClaims(e: Env, visited: set<Goal>, parts: seq<set<Goal>>): (claims: seq<Claim>)
    ensures |claims| == |parts| && forall i :: 0 <= i < |parts| ==> claims[i] == SomeClaim(e, visited, parts[i])
  {
    seq(|parts|, i requires 0 <= i < |parts| => SomeClaim(e, visited, parts[i]))
  }

  lemma PartsHold(e: Env, visited: set<Goal>, all: set<Goal>, parts: seq<set<Goal>>, claims: seq<Claim>)
    requires claims == PartClaims(e, visited, parts) && Within(parts, all)
    ensures forall i :: 0 <= i < |claims| && claims[i].holds ==> SomeClaim(e, visited, all).holds
  {
    forall i | 0 <= i < |claims| && claims[i].holds ensures SomeClaim(e, visited, all).holds {
      var k :| k in parts[i] && IsTrue(e, k);
      assert k in all;
    }
  }

  lemma PartsFail(e: Env, visited: set<Goal>, all: set<Goal>, parts: seq<set<Goal>>, claims: seq<Claim>)
    requires claims == PartClaims(e, visited, parts) && Covers(parts, all)
    ensures (forall i :: 0 <= i < |claims| ==> claims[i].fails) ==> SomeClaim(e, visited, all).fails
  {
    if forall i :: 0 <= i < |claims| ==> claims[i].fails {
      forall k | k in all ensures IsFalse(e, k) {
        var i :| 0 <= i < |parts| && k in parts[i];
        assert claims[i].fails;
      }
    }
  }

  lemma PartsDue(e: Env, visited: set<Goal>, all: set<Goal>, parts: seq<set<Goal>>, claims: seq<Claim>)
    requires claims == PartClaims(e, visited, parts) && Covers(parts, all)
    ensures SomeClaim(e, visited, all).due ==> exists i :: 0 <= i < |claims| && claims[i].due
  {
    if DueSome(e, visited, all) {
      var k :| k in all && Due(e, visited, k);
      var i :| 0 <= i < |parts| && k in parts[i];
      assert claims[i].due;
    }
  }

  lemma PartsLoopless(e: Env, visited: set<Goal>, all: set<Goal>, parts: seq<set<Goal>>, claims: seq<Claim>)
    requires claims == PartClaims(e, visited, parts) && Within(parts, all)
    ensures SomeClaim(e, visited, all).loopless ==> forall i :: 0 <= i < |claims| ==> claims[i].loopless
  {
    forall i | 0 <= i < |claims| && SomeClaim(e, visited, all).loopless ensures claims[i].loopless {
      forall k | k in parts[i] ensures IsLoopless(e, visited, k) {
        assert k in all;
      }
    }
  }

  lemma GroupIsWithin(types: TypeSystem, g: Goal, refs: seq<Ref>, group: seq<Ref>)
    requires group in RefGroups(types, g, refs)
    ensures forall q :: q in group ==> q in refs
  {
    assert group in LightGroups(types, g, refs) || group == HeavyRefs(types, g, refs);
  }

  lemma GroupsAreUsersets(types: TypeSystem, g: Goal, restrictions: seq<Ref>)
    ensures var groups := RefGroups(types, g, UsersetRefs(restrictions));
            forall i :: 0 <= i < |groups| && |groups[i]| == 1 ==> groups[i][0].UsersetRef?
  {
    var groups: seq<seq<Ref>> := RefGroups(types, g, UsersetRefs(restrictions));
    forall i: nat | 0 <= i < |groups| && |groups[i]| == 1 ensures groups[i][0].UsersetRef? {
      GroupIsWithin(types, g, UsersetRefs(restrictions), groups[i]);
      assert groups[i][0] in groups[i];
    }
  }

  lemma GroupOf(e: Env, types: TypeSystem, g: Goal, k: Goal) returns (i: nat)
    requires k in AllUsersets(e, g)
    ensures var groups := RefGroups(types, g, UsersetRefs(Restrictions(e, g.obj.typ, g.relation)));
            i < |groups| && k in UsersetGoals(e, g, groups[i])
  {
    var refs := UsersetRefs(Restrictions(e, g.obj.typ, g.relation));
    var t :| t in e.tuples && t.obj == g.obj && t.relation == g.relation && t.subject.Userset? &&
             RefOf(t.subject) in Restrictions(e, g.obj.typ, g.relation) &&
             k == Goal(t.subject.obj, t.subject.relation, g.user);
    var q := RefOf(t.subject);
    var groups := RefGroups(types, g, refs);
    var group := if IsLight(types, g, q) then [q] else HeavyRefs(types, g, refs);
    assert group in groups by {
      if !IsLight(types, g, q) { assert groups[|groups| - 1] == group; }
    }
    i :| 0 <= i < |groups| && groups[i] == group;
  }
}
