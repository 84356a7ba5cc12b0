/** Resolution of a check request (check.go, default_resolver.go, cached_resolver.go): the local
    checker and the cache in front of it, which dispatch sub-problems to each other in a ring. */
module Check {
  import opened Options
  import opened Model
  import opened Semantics
  import opened Reducers
  import opened Claims
  import opened FastPath
  import opened FastPathMeaning
  import opened Weight2
  import opened Recursive
  import opened RecursiveMeaning
  import opened Handlers
  import opened Depth

  // ----- the cache

  datatype Key = Key(scope: Scope, goal: Goal)

  datatype Entry = Entry(lastModified: Time, response: Outcome)

  /** The cache holds an entry for the request that is newer than the last invalidation. */
  predicate HasEntry(cache: map<Key, Entry>, req: Request) {
    var key := Key(req.scope, req.goal);
    !req.higherConsistency && key in cache && cache[key].lastModified > req.lastInvalidation
  }

  predicate Serves(cache: map<Key, Entry>, req: Request, r: Outcome) {
    HasEntry(cache, req) && cache[Key(req.scope, req.goal)].response == r
  }

  /** A response that says what the goal means: no cycle, and the verdict is right. */
  ghost predicate Definitive(e: Env, g: Goal, o: Outcome) {
    o.Answer? && !o.cycle && (if o.allowed then IsTrue(e, g) else IsFalse(e, g))
  }

  /** Every entry written after the last change of its store is definitive, if it is about a user whose
      answers can be relied on. */
  ghost predicate Truthful(worlds: Scope -> World, changed: Time, cache: map<Key, Entry>) {
    forall k :: k in cache && cache[k].lastModified > changed && WellFormed(worlds(k.scope), k.goal.user) ==>
      Definitive(worlds(k.scope).env, k.goal, cache[k].response)
  }

  lemma DefinitiveMeets(e: Env, visited: set<Goal>, g: Goal, o: Outcome)
    requires Definitive(e, g, o)
    ensures Meets(o, GoalClaim(e, visited, g))
  {
    if Due(e, visited, g) && IsFalse(e, g) {
      TrueIsNotFalse(e, g);
    }
  }

  class CachedCheckResolver {
    var cache: map<Key, Entry>
    var now: Time
    var delegate: LocalChecker?
    /** What all other requests, expiry and eviction have made of the cache by the time a suspended
        request resumes. */
    const cacheAt: Time -> map<Key, Entry>
    ghost const worlds: Scope -> World
    /** When the tuples of any store last changed; requests run over a fixed store. */
    ghost const changed: Time

    ghost predicate Valid()
      reads this`cache, this`now
    {
      changed < now && Truthful(worlds, changed, cache)
    }

    /** Concurrent requests leave truths in the cache, as every request does whose context is live.  For all
        interleavings, and without this assumption, ring.dfy says which entries are true. */
    ghost predicate Reliable() {
      forall t :: Truthful(worlds, changed, cacheAt(t))
    }

    constructor (ghost worlds: Scope -> World, ghost changed: Time, now: Time, cacheAt: Time -> map<Key, Entry>)
      requires changed < now
      ensures this.worlds == worlds && this.changed == changed && this.cacheAt == cacheAt && this.now == now
      ensures Valid() && cache == map[] && delegate == null
    {
      this.worlds, this.changed, this.now, this.cacheAt := worlds, changed, now, cacheAt;
      cache, delegate := map[], null;
    }

    method SetDelegate(local: LocalChecker)
      modifies this`delegate
      ensures delegate == local
    {
      delegate := local;
    }

    /** The request is suspended: time passes and others use the cache. */
    method Suspend()
      requires Valid() && Reliable()
      modifies this`cache, this`now
      ensures Valid() && now > old(now) && cache == cacheAt(now)
    {
      var later: Time :| later > now;
      cache, now := cacheAt(later), later;
    }

    /** The link to the local checker, and what a request relies on: no change of the store is newer
        than the last invalidation it knows of, unless it does without the cache. */
    ghost predicate Linked(w: World, req: Request)
      reads this`delegate
    {
      && delegate != null && delegate.delegate == this && Reliable()
      && worlds(req.scope) == w && WellFormed(w, req.goal.user)
      && req.depth <= delegate.maxResolutionDepth
      && (req.higherConsistency || req.lastInvalidation >= changed)
    }

    /** Serves a valid entry, or delegates and keeps the response unless a cycle taints it. */
    method ResolveCheck(w: World, req: Request) returns (r: Outcome)
      requires Linked(w, req) && Valid()
      modifies this`cache, this`now
      ensures Valid()
      ensures Meets(r, GoalClaim(w.env, req.visited, req.goal))
      ensures Answerable(w, req, delegate.maxResolutionDepth) ==> r.Answer?
      ensures (forall t :: t > old(now) ==> HasEntry(cacheAt(t), req)) ==>
              r.Answer? && cache == cacheAt(now) && exists t :: old(now) < t <= now && Serves(cacheAt(t), req, r)
      ensures r.Error? || r.cycle ==> cache == cacheAt(now)
      ensures r.Answer? && !r.cycle ==>
        var key := Key(req.scope, req.goal);
        && key in cache && cache[key].response == r
        && (cache == cacheAt(now) || cache == cacheAt(now)[key := Entry(now, r)])
      decreases delegate.maxResolutionDepth - req.depth, Unvisited(w.env, req), 1
    {
      Suspend();
      var key := Key(req.scope, req.goal);
      if !req.higherConsistency && key in cache && cache[key].lastModified > req.lastInvalidation {
        assert Serves(cacheAt(now), req, cache[key].response);
        DefinitiveMeets(w.env, req.visited, req.goal, cache[key].response);
        return cache[key].response;
      }
      r := delegate.ResolveCheck(w, req);
      Suspend();
      if r.Error? || r.cycle {
        return;
      }
      cache := cache[key := Entry(now, r)];
    }
  }

  /** How deep in the tree of handlers a handler sits: its own handlers sit lower. */
  function Level(h: Handler): nat {
    match h
    case Operand(_) => 3
    case UsersetTuples => 2
    case UsersetGroup(_) => 1
    case _ => 0
  }

  ghost predicate Below(h: Handler, level: nat, rw: Rewrite) {
    Level(h) < level || (level == 3 && h.Operand? && h.rw < rw)
  }

  /** What a handler expects of the request it works for. */
  ghost predicate Expects(w: World, req: Request, h: Handler) {
    && (h.Operand? && ExclusionFree(w.env) ==> NoDifference(h.rw))
    && (h.UsersetGroup? ==> !req.goal.user.Userset? && (|h.refs| == 1 ==> h.refs[0].UsersetRef?))
    && (h.SubProblem? ==> h.goal.user == req.goal.user)
  }

  lemma DirectHandlersFit(w: World, req: Request)
    ensures forall i :: 0 <= i < |DirectHandlers(w.env, req.goal)| ==>
            && Below(DirectHandlers(w.env, req.goal)[i], 3, This)
            && Expects(w, req, DirectHandlers(w.env, req.goal)[i])
  {
    DirectHandlersAre(w.env, req.goal);
  }

  /** No read fails, and the depth that is left is enough. */
  ghost predicate Answerable(w: World, req: Request, limit: nat) {
    !w.faulty && req.depth <= limit && Shallow(w, limit - req.depth, req.visited, req.goal)
  }

  ghost predicate AnswerableHandler(w: World, req: Request, limit: nat, h: Handler) {
    !w.faulty && req.depth < limit && ShallowHandler(w, limit - req.depth, req.visited, req.goal, h)
  }

  ghost predicate AllAnswerable(w: World, req: Request, limit: nat, hs: seq<Handler>) {
    forall i :: 0 <= i < |hs| ==> AnswerableHandler(w, req, limit, hs[i])
  }

  lemma GroupsAreAnswerable(w: World, req: Request, limit: nat, groups: seq<seq<Ref>>)
    requires var refs := Restrictions(w.env, req.goal.obj.typ, req.goal.relation);
             groups == RefGroups(w.types, req.goal, UsersetRefs(refs))
    requires AnswerableHandler(w, req, limit, UsersetTuples)
    ensures AllAnswerable(w, req, limit, Groups(groups))
  {
    var g := req.goal;
    var refs := Restrictions(w.env, g.obj.typ, g.relation);
    forall i | 0 <= i < |groups| ensures AnswerableHandler(w, req, limit, Groups(groups)[i]) {
      GroupIsWithin(w.types, g, UsersetRefs(refs), groups[i]);
      assert UsersetGoals(w.env, g, groups[i]) <= AllUsersets(w.env, g);
    }
  }

  class LocalChecker {
    const maxResolutionDepth: nat
    const optimizationsEnabled: bool
    /** Where sub-problems are dispatched to: the cache, or this checker itself. */
    const delegate: CachedCheckResolver?

    constructor (maxResolutionDepth: nat, optimizationsEnabled: bool, delegate: CachedCheckResolver?)
      ensures this.maxResolutionDepth == maxResolutionDepth && this.optimizationsEnabled == optimizationsEnabled
      ensures this.delegate == delegate
    {
      this.maxResolutionDepth, this.optimizationsEnabled, this.delegate := maxResolutionDepth, optimizationsEnabled,
          delegate;
    }

    ghost function Caches(): set<CachedCheckResolver> {
      if delegate == null then {} else {delegate}
    }

    /** What a request relies on. */
    ghost predicate Linked(w: World, req: Request)
      reads Caches()`delegate
    {
      && WellFormed(w, req.goal.user) && req.depth <= maxResolutionDepth
      && (delegate != null ==> delegate.delegate == this && delegate.Linked(w, req))
    }

    ghost predicate Valid()
      reads Caches()`cache, Caches()`now
    {
      delegate != null ==> delegate.Valid()
    }

    method ResolveCheck(w: World, req: Request) returns (r: Outcome)
      requires Linked(w, req) && Valid()
      modifies Caches()`cache, Caches()`now
      ensures Valid()
      ensures Meets(r, GoalClaim(w.env, req.visited, req.goal))
      ensures req.depth == maxResolutionDepth ==> r == Error
      ensures Answerable(w, req, maxResolutionDepth) ==> r.Answer?
      decreases maxResolutionDepth - req.depth, Unvisited(w.env, req), 0
    {
      var g := req.goal;
      TrivialMeets(w.env, req.visited, g);
      if req.depth == maxResolutionDepth {
        return Error;
      }
      if g in req.visited {
        return Answer(false, true);
      }
      if SelfDefining(g) {
        return Answer(true, false);
      }
      if !Defined(w.env, g.obj.typ, g.relation) {
        return Error;
      }
      if !HasPath(w.env, g) {
        NoPathMeets(w.env, req.visited, g);
        return DENIED;
      }
      var inner := req.(visited := req.visited + {g});
      assert (g.obj.typ, g.relation) in Unvisited(w.env, req) && (g.obj.typ, g.relation) !in Unvisited(w.env, inner);
      assert Unvisited(w.env, inner) < Unvisited(w.env, req);
      r := CheckRewrite(w, inner, RewriteOf(w.env, g.obj.typ, g.relation));
      GoalMeets(w.env, req.visited, g, r);
    }

    method CheckRewrite(w: World, req: Request, rw: Rewrite) returns (r: Outcome)
      requires Linked(w, req) && Valid() && req.depth < maxResolutionDepth
      requires ExclusionFree(w.env) ==> NoDifference(rw)
      modifies Caches()`cache, Caches()`now
      ensures Valid()
      ensures Meets(r, RewriteClaim(w.env, req.visited, req.goal, rw))
      ensures AnswerableHandler(w, req, maxResolutionDepth, Operand(rw)) ==> r.Answer?
      decreases maxResolutionDepth - req.depth, Unvisited(w.env, req), 3, rw, 2
    {
      match rw
      case This => r := CheckDirect(w, req);
      case Computed(c) => r := CheckComputedUserset(w, req, c);
      case TupleToUserset(ts, c) => r := CheckTTU(w, req, ts, c);
      case Union(cs) => r := CheckUnion(w, req, cs, rw);
      case Intersection(cs) => r := CheckIntersection(w, req, cs, rw);
      case Difference(b, s) => r := CheckExclusion(w, req, b, s, rw);
    }

    /** No dispatch: the depth stays, and the cache is not consulted. */
    method CheckComputedUserset(w: World, req: Request, c: RelationName) returns (r: Outcome)
      requires Linked(w, req) && Valid()
      modifies Caches()`cache, Caches()`now
      ensures Valid()
      ensures Meets(r, RewriteClaim(w.env, req.visited, req.goal, Computed(c)))
      ensures AnswerableHandler(w, req, maxResolutionDepth, Operand(Computed(c))) ==> r.Answer?
      decreases maxResolutionDepth - req.depth, Unvisited(w.env, req), 3, Computed(c), 1
    {
      var child := req.(goal := Goal(req.goal.obj, c, req.goal.user));
      assert Unvisited(w.env, child) == Unvisited(w.env, req);
      r := ResolveCheck(w, child);
      ComputedMeets(w.env, req.visited, req.goal, c, r);
    }

    method Dispatch(w: World, req: Request, g: Goal) returns (r: Outcome)
      requires Linked(w, req) && Valid() && req.depth < maxResolutionDepth && g.user == req.goal.user
      modifies Caches()`cache, Caches()`now
      ensures Valid()
      ensures Meets(r, GoalClaim(w.env, req.visited, g))
      ensures AnswerableHandler(w, req, maxResolutionDepth, SubProblem(g)) ==> r.Answer?
      decreases maxResolutionDepth - req.depth, Unvisited(w.env, req), 0, This, 4
    {
      if delegate == null {
        r := ResolveCheck(w, req.Child(g));
      } else {
        r := delegate.ResolveCheck(w, req.Child(g));
      }
    }

    // ----- handlers

    /** Runs the handlers of a reducer.  They run concurrently: what each sees of the cache depends on the
        others, so the order in which they are listed is immaterial. */
    method RunHandlers(w: World, req: Request, hs: seq<Handler>, ghost level: nat, ghost rw: Rewrite)
      returns (outs: seq<Outcome>)
      requires Linked(w, req) && Valid() && req.depth < maxResolutionDepth
      requires forall i :: 0 <= i < |hs| ==> Below(hs[i], level, rw) && Expects(w, req, hs[i])
      modifies Caches()`cache, Caches()`now
      ensures Valid()
      ensures AllMeet(outs, ClaimsOf(w.env, req.visited, req.goal, hs))
      ensures AllAnswerable(w, req, maxResolutionDepth, hs) ==> Error !in outs
      decreases maxResolutionDepth - req.depth, Unvisited(w.env, req), level, rw, 0, 0
    {
      ghost var claims := ClaimsOf(w.env, req.visited, req.goal, hs);
      ghost var sure := AllAnswerable(w, req, maxResolutionDepth, hs);
      outs := [];
      for i := 0 to |hs|
        invariant Valid() && |outs| == i
        invariant MeetSoFar(outs, claims)
        invariant sure ==> Error !in outs
      {
        var out := Run(w, req, hs[i]);
        ClaimAt(w.env, req.visited, req.goal, hs, i);
        OneMoreMeets(outs, claims, out);
        outs := outs + [out];
      }
    }

    /** The first allowed outcome settles a union. */
    method UnionOf(w: World, req: Request, hs: seq<Handler>, ghost level: nat, ghost rw: Rewrite)
      returns (r: Outcome, ghost outs: seq<Outcome>)
      requires Linked(w, req) && Valid() && req.depth < maxResolutionDepth
      requires forall i :: 0 <= i < |hs| ==> Below(hs[i], level, rw) && Expects(w, req, hs[i])
      modifies Caches()`cache, Caches()`now
      ensures Valid()
      ensures AllMeet(outs, ClaimsOf(w.env, req.visited, req.goal, hs)) && UnionResult(outs, r)
      ensures AllAnswerable(w, req, maxResolutionDepth, hs) ==> r.Answer?
      decreases maxResolutionDepth - req.depth, Unvisited(w.env, req), level, rw, 0, 1
    {
      var all := RunHandlers(w, req, hs, level, rw);
      var arrivals := Arrive(all);
      r := RunUnion(|hs|, arrivals, true);
      UnionInAnyOrder(all, arrivals, r);
      outs := all;
    }

    method Run(w: World, req: Request, h: Handler) returns (r: Outcome)
      requires Linked(w, req) && Valid() && req.depth < maxResolutionDepth && Expects(w, req, h)
      modifies Caches()`cache, Caches()`now
      ensures Valid()
      ensures Meets(r, HandlerClaim(w.env, req.visited, req.goal, h))
      ensures AnswerableHandler(w, req, maxResolutionDepth, h) ==> r.Answer?
      decreases maxResolutionDepth - req.depth, Unvisited(w.env, req), Level(h), if h.Operand? then h.rw else This, 5
    {
      match h
      case Operand(rw) => r := CheckRewrite(w, req, rw);
      case DirectTuple => r := ReadOne(Tuple(req.goal.obj, req.goal.relation, req.goal.user) in w.env.tuples, w.faulty);
      case PublicTuple => r := ReadOne(PublicRead(w.env, req.goal), w.faulty);
      case UsersetTuples => r := CheckDirectUsersetTuples(w, req);
      case UsersetGroup(refs) => r := CheckGroup(w, req, refs);
      case SubProblem(k) => r := Dispatch(w, req, k);
    }

    /** A read that answers with one tuple, with none, or fails. */
    method ReadOne(found: bool, faulty: bool) returns (r: Outcome)
      ensures (faulty && r == Error) || r == Answer(found, false)
    {
      var fails := *;
      r := if fails && faulty then Error else Answer(found, false);
    }

    // ----- set operators

    method CheckUnion(w: World, req: Request, cs: seq<Rewrite>, ghost rw: Rewrite) returns (r: Outcome)
      requires Linked(w, req) && Valid() && req.depth < maxResolutionDepth && rw == Union(cs)
      requires ExclusionFree(w.env) ==> NoDifference(rw)
      modifies Caches()`cache, Caches()`now
      ensures Valid()
      ensures Meets(r, RewriteClaim(w.env, req.visited, req.goal, rw))
      ensures AnswerableHandler(w, req, maxResolutionDepth, Operand(rw)) ==> r.Answer?
      decreases maxResolutionDepth - req.depth, Unvisited(w.env, req), 3, rw, 1
    {
      ghost var outs;
      r, outs := UnionOf(w, req, Operands(cs), 3, rw);
      UnionOfOperands(w.env, req.visited, req.goal, cs, outs, r);
    }

    method CheckIntersection(w: World, req: Request, cs: seq<Rewrite>, ghost rw: Rewrite) returns (r: Outcome)
      requires Linked(w, req) && Valid() && req.depth < maxResolutionDepth && rw == Intersection(cs)
      requires ExclusionFree(w.env) ==> NoDifference(rw)
      modifies Caches()`cache, Caches()`now
      ensures Valid()
      ensures Meets(r, RewriteClaim(w.env, req.visited, req.goal, rw))
      ensures AnswerableHandler(w, req, maxResolutionDepth, Operand(rw)) ==> r.Answer?
      decreases maxResolutionDepth - req.depth, Unvisited(w.env, req), 3, rw, 1
    {
      var outs := RunHandlers(w, req, Operands(cs), 3, rw);
      var arrivals := Arrive(outs);
      r := RunIntersection(|cs|, arrivals, true);
      IntersectionInAnyOrder(outs, arrivals, r);
      IntersectionOfOperands(w.env, req.visited, req.goal, cs, outs, r);
    }

    method CheckExclusion(w: World, req: Request, b: Rewrite, s: Rewrite, ghost rw: Rewrite) returns (r: Outcome)
      requires Linked(w, req) && Valid() && req.depth < maxResolutionDepth && rw == Difference(b, s) &&
               !ExclusionFree(w.env)
      modifies Caches()`cache, Caches()`now
      ensures Valid()
      ensures Meets(r, RewriteClaim(w.env, req.visited, req.goal, rw))
      ensures AnswerableHandler(w, req, maxResolutionDepth, Operand(rw)) ==> r.Answer?
      decreases maxResolutionDepth - req.depth, Unvisited(w.env, req), 3, rw, 1
    {
      var base := CheckRewrite(w, req, b);
      var sub := CheckRewrite(w, req, s);
      r := RunExclusion(Some(base), Some(sub), true);
      ExclusionOfOperands(w.env, req.visited, req.goal, b, s, base, sub, r);
    }

    // ----- the reference strategy

    /** Dispatches one sub-problem for every goal, in any order of arrival; the read that lists the
        goals may fail on the way. */
    method DefaultStrategy(w: World, req: Request, goals: set<Goal>) returns (r: Outcome)
      requires Linked(w, req) && Valid() && req.depth < maxResolutionDepth
      requires forall k :: k in goals ==> k.user == req.goal.user
      modifies Caches()`cache, Caches()`now
      ensures Valid()
      ensures Meets(r, SomeClaim(w.env, req.visited, goals))
      ensures !w.faulty && AllShallow(w, maxResolutionDepth - req.depth - 1, req.visited, goals) ==> r.Answer?
      decreases maxResolutionDepth - req.depth, Unvisited(w.env, req), 1, This, 3
    {
      var read, complete := ReadGoals(goals, w.faulty);
      var outs := RunHandlers(w, req, SubProblems(read), 1, This);
      var all := if complete then outs else outs + [Error];
      var arrivals := Arrive(all);
      r := ConsumeDispatches(arrivals, true);
      UnionInAnyOrder(all, arrivals, r);
      UnionOfGoals(w.env, req.visited, req.goal, goals, read, complete, outs, r);
    }

    /** An iterator over the goals in any order, cut short when a read fails. */
    method ReadGoals(goals: set<Goal>, faulty: bool) returns (read: seq<Goal>, complete: bool)
      ensures forall g :: g in read ==> g in goals
      ensures complete ==> forall g :: g in goals ==> g in read
      ensures !faulty ==> complete
    {
      read := [];
      var remaining := goals;
      complete := true;
      while remaining != {} && complete
        invariant remaining <= goals && forall g :: g in read ==> g in goals
        invariant forall g :: g in goals ==> g in remaining || g in read
        invariant !faulty ==> complete
        decreases remaining, complete
      {
        var g :| g in remaining;
        var fails := *;
        if fails && faulty {
          complete := false;
        } else {
          read, remaining := read + [g], remaining - {g};
        }
      }
    }

    // ----- direct relations

    method CheckDirect(w: World, req: Request) returns (r: Outcome)
      requires Linked(w, req) && Valid() && req.depth < maxResolutionDepth
      modifies Caches()`cache, Caches()`now
      ensures Valid()
      ensures Meets(r, RewriteClaim(w.env, req.visited, req.goal, This))
      ensures AnswerableHandler(w, req, maxResolutionDepth, Operand(This)) ==> r.Answer?
      decreases maxResolutionDepth - req.depth, Unvisited(w.env, req), 3, This, 1
    {
      DirectHandlersFit(w, req);
      ghost var outs;
      r, outs := UnionOf(w, req, DirectHandlers(w.env, req.goal), 3, This);
      HasValidTuples(w, req.goal.user);
      UnionOfDirectHandlers(w.env, req.visited, req.goal, outs, r);
    }

    /** Chooses among the strategies that the type system offers for the userset restrictions. */
    method CheckDirectUsersetTuples(w: World, req: Request) returns (r: Outcome)
      requires Linked(w, req) && Valid() && req.depth < maxResolutionDepth
      modifies Caches()`cache, Caches()`now
      ensures Valid()
      ensures Meets(r, SomeClaim(w.env, req.visited, AllUsersets(w.env, req.goal)))
      ensures AnswerableHandler(w, req, maxResolutionDepth, UsersetTuples) ==> r.Answer?
      decreases maxResolutionDepth - req.depth, Unvisited(w.env, req), 2, This, 4
    {
      var g := req.goal;
      var readFails, chosen := *, *;
      if readFails && w.faulty {
        return Error;
      }
      if g.user.Userset? {
        r := DefaultStrategy(w, req, AllUsersets(w.env, g));
      } else if w.types.usersetUseRecursive(g.obj.typ, g.relation, UserType(g.user)) {
        if optimizationsEnabled && !chosen {
          r := DefaultStrategy(w, req, AllUsersets(w.env, g));
        } else {
          r := ByRecursion(w, req, maxResolutionDepth);
        }
      } else {
        r := CheckUsersetsByWeight(w, req);
      }
    }

    /** One handler for every restriction of weight two, and one default handler for all the others. */
    method CheckUsersetsByWeight(w: World, req: Request) returns (r: Outcome)
      requires Linked(w, req) && Valid() && req.depth < maxResolutionDepth && !req.goal.user.Userset?
      modifies Caches()`cache, Caches()`now
      ensures Valid()
      ensures Meets(r, SomeClaim(w.env, req.visited, AllUsersets(w.env, req.goal)))
      ensures AnswerableHandler(w, req, maxResolutionDepth, UsersetTuples) ==> r.Answer?
      decreases maxResolutionDepth - req.depth, Unvisited(w.env, req), 2, This, 3
    {
      var groups := RefGroups(w.types, req.goal, UsersetRefs(Restrictions(w.env, req.goal.obj.typ, req.goal.relation)));
      GroupsAreUsersets(w.types, req.goal, Restrictions(w.env, req.goal.obj.typ, req.goal.relation));
      if AnswerableHandler(w, req, maxResolutionDepth, UsersetTuples) {
        GroupsAreAnswerable(w, req, maxResolutionDepth, groups);
      }
      ghost var outs;
      r, outs := UnionOf(w, req, Groups(groups), 2, This);
      UnionOfGroups(w.env, w.types, req.visited, req.goal, groups, outs, r);
    }

    method CheckGroup(w: World, req: Request, group: seq<Ref>) returns (r: Outcome)
      requires Linked(w, req) && Valid() && req.depth < maxResolutionDepth && !req.goal.user.Userset?
      requires |group| == 1 ==> group[0].UsersetRef?
      modifies Caches()`cache, Caches()`now
      ensures Valid()
      ensures Meets(r, SomeClaim(w.env, req.visited, UsersetGoals(w.env, req.goal, group)))
      ensures AnswerableHandler(w, req, maxResolutionDepth, UsersetGroup(group)) ==> r.Answer?
      decreases maxResolutionDepth - req.depth, Unvisited(w.env, req), 1, This, 4
    {
      var chosen := *;
      if |group| == 1 && IsLight(w.types, req.goal, group[0]) && (chosen || !optimizationsEnabled) {
        assert group == [group[0]];
        r := ByWeight2(w, req, group[0]);
      } else {
        r := DefaultStrategy(w, req, UsersetGoals(w.env, req.goal, group));
      }
    }

    // ----- tuple to userset

    method CheckTTU(w: World, req: Request, ts: RelationName, c: RelationName) returns (r: Outcome)
      requires Linked(w, req) && Valid() && req.depth < maxResolutionDepth
      modifies Caches()`cache, Caches()`now
      ensures Valid()
      ensures Meets(r, RewriteClaim(w.env, req.visited, req.goal, TupleToUserset(ts, c)))
      ensures AnswerableHandler(w, req, maxResolutionDepth, Operand(TupleToUserset(ts, c))) ==> r.Answer?
      decreases maxResolutionDepth - req.depth, Unvisited(w.env, req), 3, TupleToUserset(ts, c), 1
    {
      var g := req.goal;
      var readFails, chosen := *, *;
      if readFails && w.faulty {
        return Error;
      }
      if g.user.Userset? || (optimizationsEnabled && !chosen) || !IsFastTTU(w.types, g, ts, c) {
        r := DefaultStrategy(w, req, TtuGoals(w.env, g, ts, c));
      } else {
        r := ByFastTTU(w, req, ts, c, maxResolutionDepth);
      }
      TtuMeets(w.env, req.visited, g, ts, c, r);
    }
  }

  /** The ring of one server: the cache in front of the checker, and the checker dispatching to the cache. */
  method NewRing(ghost worlds: Scope -> World, ghost changed: Time, now: Time, cacheAt: Time -> map<Key, Entry>,
                 maxResolutionDepth: nat, optimizationsEnabled: bool)
    returns (cached: CachedCheckResolver, local: LocalChecker)
    requires changed < now
    ensures fresh(cached) && fresh(local) && cached.delegate == local && local.delegate == cached
    ensures cached.Valid() && local.Valid() && cached.cache == map[] && local.maxResolutionDepth == maxResolutionDepth
    ensures cached.worlds == worlds && cached.changed == changed && cached.cacheAt == cacheAt
  {
    cached := new CachedCheckResolver(worlds, changed, now, cacheAt);
    local := new LocalChecker(maxResolutionDepth, optimizationsEnabled, cached);
    cached.SetDelegate(local);
  }

  // ----- the fast strategies, as a request calls them

  method ByRecursion(w: World, req: Request, limit: nat) returns (r: Outcome)
    requires WellFormed(w, req.goal.user) && req.depth < limit && !req.goal.user.Userset?
    requires w.types.usersetUseRecursive(req.goal.obj.typ, req.goal.relation, UserType(req.goal.user))
    ensures Meets(r, SomeClaim(w.env, req.visited, AllUsersets(w.env, req.goal)))
    ensures !w.faulty && UsersetSearchEnds(w, limit - req.depth, req.goal) ==> r.Answer?
  {
    assert Unfold(w, req.goal.user);
    r := RecursiveUserset(w.env, w.rank, w.store, req.goal, req.depth, limit, w.faulty, req.visited);
  }

  method ByWeight2(w: World, req: Request, ref: Ref) returns (r: Outcome)
    requires WellFormed(w, req.goal.user) && !req.goal.user.Userset?
    requires ref.UsersetRef? && IsLight(w.types, req.goal, ref)
    ensures Meets(r, SomeClaim(w.env, req.visited, UsersetGoals(w.env, req.goal, [ref])))
    ensures !w.faulty ==> r.Answer?
  {
    assert Unfold(w, req.goal.user);
    r := Weight2Userset(w.env, w.rank, w.store, req.goal, ref, w.faulty, req.visited);
  }

  predicate IsFastTTU(types: TypeSystem, g: Goal, ts: RelationName, c: RelationName) {
    || types.ttuUseWeight2(g.obj.typ, g.relation, UserType(g.user), TupleToUserset(ts, c))
    || types.ttuUseRecursive(g.obj.typ, g.relation, UserType(g.user), TupleToUserset(ts, c))
  }

  method ByFastTTU(w: World, req: Request, ts: RelationName, c: RelationName, limit: nat) returns (r: Outcome)
    requires WellFormed(w, req.goal.user) && req.depth < limit && !req.goal.user.Userset?
    requires IsFastTTU(w.types, req.goal, ts, c)
    ensures Meets(r, SomeClaim(w.env, req.visited, TtuGoals(w.env, req.goal, ts, c)))
    ensures !w.faulty && TtuSearchEnds(w, limit - req.depth, req.goal, ts, c) ==> r.Answer?
  {
    assert Unfold(w, req.goal.user);
    var g := req.goal;
    if w.types.ttuUseWeight2(g.obj.typ, g.relation, UserType(g.user), TupleToUserset(ts, c)) {
      r := Weight2TTU(w.env, w.rank, w.store, g, ts, c, w.faulty, req.visited);
    } else {
      r := RecursiveTTU(w.env, w.rank, w.store, g, ts, req.depth, limit, w.faulty, req.visited);
    }
  }

  // ----- what the contracts of ResolveCheck add up to

  /** Two answers free of cycles agree, whatever paths the requests came along, and whether they were
      computed or served from the cache. */
  lemma CycleFreeAnswersAgree(e: Env, g: Goal, visited1: set<Goal>, visited2: set<Goal>, r1: Outcome, r2: Outcome)
    requires Meets(r1, GoalClaim(e, visited1, g)) && Meets(r2, GoalClaim(e, visited2, g))
    requires r1.Answer? && !r1.cycle && r2.Answer? && !r2.cycle
    ensures r1 == r2
  {
    if IsTrue(e, g) {
      TrueIsNotFalse(e, g);
    }
  }

  /** So it does not matter which strategy answers: whatever decides the same goals gives the same answer. */
  lemma StrategiesAgree(e: Env, goals: set<Goal>, visited1: set<Goal>, visited2: set<Goal>, r1: Outcome, r2: Outcome)
    requires Meets(r1, SomeClaim(e, visited1, goals)) && Meets(r2, SomeClaim(e, visited2, goals))
    requires r1.Answer? && !r1.cycle && r2.Answer? && !r2.cycle
    ensures r1 == r2
  {
    if k :| k in goals && IsTrue(e, k) {
      TrueIsNotFalse(e, k);
    }
  }

  /** With exclusions as well, whatever is answered about a goal whose chains of sub-goals never come back to
      the path is the truth. */
  lemma LooplessIsDecided(e: Env, visited: set<Goal>, g: Goal, r: Outcome)
    requires Meets(r, GoalClaim(e, visited, g)) && IsLoopless(e, visited, g) && r.Answer?
    ensures Definitive(e, g, r) && (r.allowed <==> IsTrue(e, g))
  {
    if IsTrue(e, g) {
      TrueIsNotFalse(e, g);
    }
  }

  /** Without exclusion a request on its own, which has visited nothing, is never denied wrongly, although
      every path below it is cut where it meets itself. */
  lemma NoFalseDenial(e: Env, g: Goal, r: Outcome)
    requires ExclusionFree(e) && Meets(r, GoalClaim(e, {}, g)) && r.Answer?
    ensures r.allowed <==> IsTrue(e, g)
  {
    if IsTrue(e, g) {
      var n: nat :| Holds(e, n, g);
      assert Unblocked(e, {}, n);
      assert Due(e, {}, g);
    }
  }

  /** Only a response that would be right along every path may be kept: any other one, even a right
      guess of the verdict on one path, is not an answer for a goal that is undecided. */
  lemma OnlyDefinitiveIsServable(e: Env, g: Goal, r: Outcome)
    requires r.Answer?
    ensures Definitive(e, g, r) <==> !r.cycle && forall visited: set<Goal> :: Meets(r, GoalClaim(e, visited, g))
  {
    var atRoot := GoalClaim(e, {}, g);
    if Definitive(e, g, r) {
      forall visited: set<Goal> ensures Meets(r, GoalClaim(e, visited, g)) {
        DefinitiveMeets(e, visited, g, r);
      }
    }
  }
}
