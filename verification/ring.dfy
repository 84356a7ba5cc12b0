/** All interleavings of concurrent requests on one cache, as a state machine.

    A request is a tree of jobs.  Any job of any request may take the next step.  A reducer may answer as soon
    as the outcomes that have arrived settle it; that ends the context of the handlers it leaves behind, which
    go on without anybody waiting for them, and so does the context of a request that its client gives up.

    Once its context has ended, a job may still do all that it would have done, or end in an error; but its
    outcomes may also get lost on their way, and a union or an intersection whose handlers are all through
    answers from those it has received.  An answer that does not follow from whole outcomes is marked as
    `cut` here.  The code knows no such mark: it keeps cut answers in the cache like all others. */
module Ring {
  import opened Model
  import opened Semantics
  import opened Reducers
  import opened Claims
  import opened Handlers
  import opened Check

  datatype Operator =
    | OfUnion
    | OfIntersection
    | OfExclusion
    | OfDispatches(complete: bool)

  datatype Job =
    | Cached(req: Request)
    | Local(req: Request)
    | Saving(req: Request, inner: Job)
    | Handling(req: Request, h: Handler)
    | Reducing(op: Operator, req: Request, hs: seq<Handler>, kids: seq<Job>)
    | Finished(out: Outcome, cut: bool)

  /** A job that has come to an outcome with nothing lost. */
  function Whole(out: Outcome): Job {
    Finished(out, false)
  }

  /** An entry of the cache, and whether its response was cut. */
  datatype Kept = Kept(entry: Entry, cut: bool)

  /** What all requests share. */
  datatype Shared = Shared(cache: map<Key, Kept>, now: Time)

  /** The fixed part: what a scope stands for, when a store last changed, the depth limit, the users for whom
      the fast strategies keep what they promise, and whether the cache heeds the context of a request before
      it keeps the answer.  The code does not. */
  datatype Config = Config(worlds: Scope -> World, changed: Time, limit: nat, relied: (Scope, Subject) -> bool,
                           heeds: bool)

  /** The strategies keep their promises for users about whose world all assumptions are met. */
  ghost predicate Sane(k: Config) {
    forall scope, user :: k.relied(scope, user) ==> WellFormed(k.worlds(scope), user)
  }

  /** All that the machine itself needs of a world. */
  ghost predicate Lawful(k: Config) {
    forall scope, user :: k.relied(scope, user) ==> ValidTuples(k.worlds(scope).env)
  }

  lemma SaneIsLawful(k: Config)
    requires Sane(k)
    ensures Lawful(k)
  {
    forall scope, user | k.relied(scope, user) ensures ValidTuples(k.worlds(scope).env) {
      HasValidTuples(k.worlds(scope), user);
    }
  }

  ghost predicate OperatorResult(op: Operator, outs: seq<Outcome>, r: Outcome) {
    match op
    case OfUnion => UnionResult(outs, r)
    case OfIntersection => IntersectionResult(outs, r)
    case OfExclusion => |outs| == 2 && ExclusionResult(outs[0], outs[1], r)
    case OfDispatches(complete) => UnionResult(if complete then outs else outs + [Error], r)
  }

  /** What the loop of a reducer makes of the outcomes that it receives, if it ends although the context has:
      turns that find the channel closed pass without an outcome. */
  ghost predicate LoopResult(op: Operator, handlers: nat, part: seq<Outcome>, r: Outcome) {
    match op
    case OfUnion => UnionResult(part, r)
    case OfIntersection => handlers >= 2 && AllAllowedResult(part, r)
    case OfExclusion => false
    case OfDispatches(_) => false
  }

  /** The outcomes that have arrived; a handler still at work counts as if it had failed. */
  function Arrived(kids: seq<Job>): (outs: seq<Outcome>)
    ensures |outs| == |kids|
    ensures forall i :: 0 <= i < |kids| ==> outs[i] == if kids[i].Finished? then kids[i].out else Error
  {
    seq(|kids|, i requires 0 <= i < |kids| => if kids[i].Finished? then kids[i].out else Error)
  }

  /** The outcomes that were not cut; the others count as if they had failed. */
  function Trusted(kids: seq<Job>): (outs: seq<Outcome>)
    ensures |outs| == |kids|
    ensures forall i :: 0 <= i < |kids| ==>
              outs[i] == if kids[i].Finished? && !kids[i].cut then kids[i].out else Error
  {
    seq(|kids|, i requires 0 <= i < |kids| => if kids[i].Finished? && !kids[i].cut then kids[i].out else Error)
  }

  /** All handlers are through, and some of their outcomes may have got lost. */
  ghost predicate PartResult(op: Operator, kids: seq<Job>, r: Outcome) {
    && (forall i :: 0 <= i < |kids| ==> kids[i].Finished?)
    && exists part: seq<Outcome> :: multiset(part) <= multiset(Arrived(kids)) && LoopResult(op, |kids|, part, r)
  }

  /** A reducer comes to an outcome.  The consumer of dispatches looks at its context last of all. */
  ghost predicate Concludes(live: bool, op: Operator, kids: seq<Job>, t: Job) {
    && t.Finished?
    && (if live then OperatorResult(op, Arrived(kids), t.out)
        else !op.OfDispatches? && (OperatorResult(op, Arrived(kids), t.out) || PartResult(op, kids, t.out)))
    && (t.cut <==> !OperatorResult(op, Trusted(kids), t.out))
  }

  // ----- steps

  /** The request that the handlers of a goal work for: the goal has joined the path. */
  function Inner(req: Request): Request {
    req.(visited := req.visited + {req.goal})
  }

  /** What the local checker does on entry, in the order of its checks, after it has seen that its context is
      live. */
  ghost predicate Enters(w: World, limit: nat, req: Request, t: Job) {
    if req.depth == limit then t == Whole(Error)
    else if req.goal in req.visited then t == Whole(Answer(false, true))
    else if SelfDefining(req.goal) then t == Whole(Answer(true, false))
    else if !Defined(w.env, req.goal.obj.typ, req.goal.relation) then t == Whole(Error)
    else if !HasPath(w.env, req.goal) then t == Whole(DENIED)
    else t == Handling(Inner(req), Operand(RewriteOf(w.env, req.goal.obj.typ, req.goal.relation)))
  }

  function Start(op: Operator, req: Request, hs: seq<Handler>): Job {
    Reducing(op, req, hs, seq(|hs|, i requires 0 <= i < |hs| => Handling(req, hs[i])))
  }

  /** The reference strategy: an iterator lists the goals in any order, and may break off. */
  ghost predicate DispatchesAll(req: Request, goals: set<Goal>, t: Job) {
    exists read: seq<Goal>, complete: bool ::
      && (forall k :: k in read ==> k in goals) && (complete ==> forall k :: k in goals ==> k in read)
      && t == Start(OfDispatches(complete), req, SubProblems(read))
  }

  /** The type system offers a fast strategy for the handler. */
  predicate IsFast(w: World, g: Goal, h: Handler) {
    !g.user.Userset? &&
    match h
    case UsersetTuples => w.types.usersetUseRecursive(g.obj.typ, g.relation, UserType(g.user))
    case UsersetGroup(refs) => |refs| == 1 && IsLight(w.types, g, refs[0])
    case Operand(TupleToUserset(ts, c)) => IsFastTTU(w.types, g, ts, c)
    case _ => false
  }

  /** A fast strategy answers with anything its contract allows, if that applies to the user; once its context
      has ended it may take what it has lost for absent. */
  ghost predicate AnswersFast(k: Config, live: bool, req: Request, h: Handler, t: Job) {
    var w := k.worlds(req.scope);
    && IsFast(w, req.goal, h) && t.Finished? && !t.out.Cyclic()
    && if t.cut then !live
       else k.relied(req.scope, req.goal.user) ==> Meets(t.out, HandlerClaim(w.env, req.visited, req.goal, h))
  }

  ghost predicate Expands(k: Config, live: bool, req: Request, h: Handler, t: Job) {
    var w, g := k.worlds(req.scope), req.goal;
    match h
    case Operand(rw) => ExpandsOperand(k, live, req, rw, t)
    case DirectTuple => t == Whole(Answer(Tuple(g.obj, g.relation, g.user) in w.env.tuples, false))
    case PublicTuple => t == Whole(Answer(PublicRead(w.env, g), false))
    case UsersetTuples =>
      || DispatchesAll(req, AllUsersets(w.env, g), t)
      || AnswersFast(k, live, req, h, t)
      || t ==
         Start(OfUnion, req, Groups(RefGroups(w.types, g, UsersetRefs(Restrictions(w.env, g.obj.typ, g.relation)))))
    case UsersetGroup(refs) => DispatchesAll(req, UsersetGoals(w.env, g, refs), t) || AnswersFast(k, live, req, h, t)
    case SubProblem(goal) => t == Cached(req.Child(goal)) || t == Local(req.Child(goal))
  }

  ghost predicate ExpandsOperand(k: Config, live: bool, req: Request, rw: Rewrite, t: Job) {
    var w, g := k.worlds(req.scope), req.goal;
    match rw
    case This => t == Start(OfUnion, req, DirectHandlers(w.env, g))
    case Computed(c) => t == Local(req.(goal := Goal(g.obj, c, g.user)))
    case TupleToUserset(ts, c) =>
      DispatchesAll(req, TtuGoals(w.env, g, ts, c), t) || AnswersFast(k, live, req, Operand(rw), t)
    case Union(cs) => t == Start(OfUnion, req, Operands(cs))
    case Intersection(cs) => t == Start(OfIntersection, req, Operands(cs))
    case Difference(b, s) => t == Start(OfExclusion, req, [Operand(b), Operand(s)])
  }

  /** The cache after a request has been delegated and answered. */
  function Saved(k: Config, live: bool, s: Shared, req: Request, out: Outcome, cut: bool): Shared {
    if out.Error? || out.cycle || (k.heeds && !live) then s
    else s.(cache := s.cache[Key(req.scope, req.goal) := Kept(Entry(s.now, out), cut)])
  }

  /** One step of a job; `live` tells whether its context is still live, and `left` are the jobs it no longer
      waits for, whose context ends. */
  ghost predicate Steps(k: Config, live: bool, s: Shared, t: Job, s': Shared, t': Job, left: seq<Job>)
    decreases t
  {
    || (!t.Finished? && s' == s && t' == Whole(Error) && left == Children(t))
    || match t
       case Cached(req) =>
         var key := Key(req.scope, req.goal);
         && s' == s && left == []
         && if !req.higherConsistency && key in s.cache && s.cache[key].entry.lastModified > req.lastInvalidation
            then t' == Finished(s.cache[key].entry.response, s.cache[key].cut)
            else t' == Saving(req, Local(req))
       case Local(req) => live && s' == s && left == [] && Enters(k.worlds(req.scope), k.limit, req, t')
       case Saving(req, inner) =>
         if inner.Finished? then
           t' == inner && left == [] && s' == Saved(k, live, s, req, inner.out, inner.cut)
         else
           exists inner' :: t' == Saving(req, inner') && Steps(k, live, s, inner, s', inner', left)
       case Handling(req, h) => s' == s && left == [] && Expands(k, live, req, h, t')
       case Reducing(op, req, hs, kids) =>
         || (s' == s && Concludes(live, op, kids, t') && left == kids)
         || exists i, kid' ::
              && 0 <= i < |kids| && t' == Reducing(op, req, hs, kids[i := kid'])
              && Steps(k, live, s, kids[i], s', kid', left)
       case Finished(_, _) => false
  }

  function Children(t: Job): seq<Job> {
    match t
    case Saving(_, inner) => [inner]
    case Reducing(_, _, _, kids) => kids
    case _ => []
  }

  // ----- what a job vouches for

  ghost predicate Fresh(k: Config, req: Request) {
    req.higherConsistency || req.lastInvalidation >= k.changed
  }

  ghost function RequestClaim(k: Config, req: Request): Claim {
    GoalClaim(k.worlds(req.scope).env, req.visited, req.goal)
  }

  ghost function ClaimOfHandler(k: Config, req: Request, h: Handler): Claim {
    HandlerClaim(k.worlds(req.scope).env, req.visited, req.goal, h)
  }

  /** Meeting the one claim implies meeting the other. */
  ghost predicate Refines(c: Claim, c': Claim) {
    forall o :: Meets(o, c) ==> Meets(o, c')
  }

  /** Whatever the handlers come to, as long as it meets their claims, the result meets `c`. */
  ghost predicate Sufficient(k: Config, op: Operator, req: Request, hs: seq<Handler>, c: Claim) {
    var claims := ClaimsOf(k.worlds(req.scope).env, req.visited, req.goal, hs);
    forall outs, r :: AllMeet(outs, claims) && OperatorResult(op, outs, r) ==> Meets(r, c)
  }

  /** The due part of a claim needs exclusions to be what the model says. */
  ghost predicate Fits(k: Config, req: Request, h: Handler) {
    h.Operand? && ExclusionFree(k.worlds(req.scope).env) ==> NoDifference(h.rw)
  }

  /** Whatever the job answers in the end will meet the claim. */
  ghost predicate Vouches(k: Config, t: Job, c: Claim)
    decreases t
  {
    match t
    case Cached(req) => Fresh(k, req) && Refines(RequestClaim(k, req), c)
    case Local(req) => Fresh(k, req) && Refines(RequestClaim(k, req), c)
    case Saving(req, inner) => Fresh(k, req) && Refines(RequestClaim(k, req), c) &&
        Vouches(k, inner, RequestClaim(k, req))
    case Handling(req, h) => Fresh(k, req) && Fits(k, req, h) && Refines(ClaimOfHandler(k, req, h), c)
    case Reducing(op, req, hs, kids) =>
      && Fresh(k, req) && |kids| == |hs| && Sufficient(k, op, req, hs, c)
      && forall i :: 0 <= i < |kids| ==> Vouches(k, kids[i], ClaimOfHandler(k, req, hs[i]))
    case Finished(out, cut) => cut || Meets(out, c)
  }

  ghost predicate Vouched(k: Config, t: Job) {
    exists c :: Vouches(k, t, c)
  }

  /** Every entry kept since the store last changed that was not cut says what its goal means. */
  ghost predicate Sound(k: Config, s: Shared) {
    k.changed < s.now && forall key :: key in s.cache && !s.cache[key].cut ==> SaysWhatItMeans(k, s, key)
  }

  ghost predicate SaysWhatItMeans(k: Config, s: Shared, key: Key)
    requires key in s.cache
  {
    s.cache[key].entry.lastModified > k.changed && k.relied(key.scope, key.goal.user) ==>
      Definitive(k.worlds(key.scope).env, key.goal, s.cache[key].entry.response)
  }

  // ----- a request and all its jobs are about one user in one scope

  predicate IsFor(req: Request, scope: Scope, user: Subject) {
    req.scope == scope && req.goal.user == user
  }

  ghost predicate Concerns(t: Job, scope: Scope, user: Subject)
    decreases t
  {
    match t
    case Cached(req) => IsFor(req, scope, user)
    case Local(req) => IsFor(req, scope, user)
    case Saving(req, inner) => IsFor(req, scope, user) && Concerns(inner, scope, user)
    case Handling(req, h) => IsFor(req, scope, user) && (h.SubProblem? ==> h.goal.user == user)
    case Reducing(_, req, _, kids) =>
      IsFor(req, scope, user) && forall i :: 0 <= i < |kids| ==> Concerns(kids[i], scope, user)
    case Finished(_, _) => true
  }

  /** Nothing is written but entries about the user in the scope. */
  ghost predicate OnlyWrites(s: Shared, s': Shared, scope: Scope, user: Subject) {
    s'.now == s.now && forall key :: key in s'.cache && !(key.scope == scope && key.goal.user == user) ==>
      key in s.cache && s'.cache[key] == s.cache[key]
  }

  lemma StartConcerns(op: Operator, req: Request, hs: seq<Handler>, scope: Scope, user: Subject)
    requires IsFor(req, scope, user)
    requires forall i :: 0 <= i < |hs| && hs[i].SubProblem? ==> hs[i].goal.user == user
    ensures Concerns(Start(op, req, hs), scope, user)
  {}

  lemma DispatchesConcern(req: Request, goals: set<Goal>, t: Job, scope: Scope, user: Subject)
    requires IsFor(req, scope, user) && DispatchesAll(req, goals, t) && forall g :: g in goals ==> g.user == user
    ensures Concerns(t, scope, user)
  {
    var read: seq<Goal>, complete: bool :|
      && (forall g :: g in read ==> g in goals) && (complete ==> forall g :: g in goals ==> g in read)
      && t == Start(OfDispatches(complete), req, SubProblems(read));
    StartConcerns(OfDispatches(complete), req, SubProblems(read), scope, user);
  }

  lemma OperandConcerns(k: Config, live: bool, req: Request, rw: Rewrite, t: Job, scope: Scope, user: Subject)
    requires IsFor(req, scope, user) && ExpandsOperand(k, live, req, rw, t)
    ensures Concerns(t, scope, user)
  {
    var e, g := k.worlds(req.scope).env, req.goal;
    match rw
    case This => DirectHandlersAre(e, g);
    case TupleToUserset(ts, c) =>
      if DispatchesAll(req, TtuGoals(e, g, ts, c), t) {
        DispatchesConcern(req, TtuGoals(e, g, ts, c), t, scope, user);
      }
    case _ =>
  }

  lemma ExpandsConcerns(k: Config, live: bool, req: Request, h: Handler, t: Job, scope: Scope, user: Subject)
    requires Concerns(Handling(req, h), scope, user) && Expands(k, live, req, h, t)
    ensures Concerns(t, scope, user)
  {
    var w, g := k.worlds(req.scope), req.goal;
    match h
    case Operand(rw) => OperandConcerns(k, live, req, rw, t, scope, user);
    case UsersetTuples =>
      if DispatchesAll(req, AllUsersets(w.env, g), t) {
        DispatchesConcern(req, AllUsersets(w.env, g), t, scope, user);
      }
    case UsersetGroup(refs) =>
      if DispatchesAll(req, UsersetGoals(w.env, g, refs), t) {
        DispatchesConcern(req, UsersetGoals(w.env, g, refs), t, scope, user);
      }
    case _ =>
  }

  lemma {:induction false} StepConcerns(k: Config, live: bool, s: Shared, t: Job, s': Shared, t': Job, left: seq<Job>,
                                        scope: Scope, user: Subject)
    requires Concerns(t, scope, user) && Steps(k, live, s, t, s', t', left)
    ensures Concerns(t', scope, user) && forall i :: 0 <= i < |left| ==> Concerns(left[i], scope, user)
    ensures OnlyWrites(s, s', scope, user)
    decreases t
  {
    if !(s' == s && t' == Whole(Error) && left == Children(t)) {
      match t
      case Handling(req, h) => ExpandsConcerns(k, live, req, h, t', scope, user);
      case Saving(req, inner) =>
        if !inner.Finished? {
          var inner' :| t' == Saving(req, inner') && Steps(k, live, s, inner, s', inner', left);
          StepConcerns(k, live, s, inner, s', inner', left, scope, user);
        }
      case Reducing(op, req, hs, kids) =>
        if !t'.Finished? {
          var i, kid' :| 0 <= i < |kids| && t' == Reducing(op, req, hs, kids[i := kid']) &&
              Steps(k, live, s, kids[i], s', kid', left);
          StepConcerns(k, live, s, kids[i], s', kid', left, scope, user);
        }
      case _ =>
    }
  }

  // ----- nothing is cut as long as contexts are live

  ghost predicate Uncut(t: Job)
    decreases t
  {
    match t
    case Saving(_, inner) => Uncut(inner)
    case Reducing(_, _, _, kids) => forall i :: 0 <= i < |kids| ==> Uncut(kids[i])
    case Finished(_, cut) => !cut
    case _ => true
  }

  ghost predicate AllUncut(s: Shared) {
    forall key :: key in s.cache ==> !s.cache[key].cut
  }

  lemma ExpandsUncut(k: Config, req: Request, h: Handler, t: Job)
    requires Expands(k, true, req, h, t)
    ensures Uncut(t)
  {}

  /** A job whose context is live does not come to a cut answer, and keeps none, unless it is served one. */
  lemma {:induction false} LiveStepIsUncut(k: Config, s: Shared, t: Job, s': Shared, t': Job, left: seq<Job>)
    requires Steps(k, true, s, t, s', t', left) && Uncut(t) && AllUncut(s)
    ensures Uncut(t') && AllUncut(s')
    decreases t
  {
    if !(s' == s && t' == Whole(Error) && left == Children(t)) {
      match t
      case Handling(req, h) => ExpandsUncut(k, req, h, t');
      case Saving(req, inner) =>
        if !inner.Finished? {
          var inner' :| t' == Saving(req, inner') && Steps(k, true, s, inner, s', inner', left);
          LiveStepIsUncut(k, s, inner, s', inner', left);
        }
      case Reducing(op, req, hs, kids) =>
        if Concludes(true, op, kids, t') {
          assert forall i :: 0 <= i < |kids| ==> Uncut(kids[i]);
          assert Trusted(kids) == Arrived(kids);
        } else {
          var i, kid' :| 0 <= i < |kids| && t' == Reducing(op, req, hs, kids[i := kid']) &&
              Steps(k, true, s, kids[i], s', kid', left);
          LiveStepIsUncut(k, s, kids[i], s', kid', left);
        }
      case _ =>
    }
  }

  /** A cache that heeds contexts is not written by work whose context has ended. */
  lemma {:induction false} HeededStepKeeps(k: Config, s: Shared, t: Job, s': Shared, t': Job, left: seq<Job>)
    requires k.heeds && Steps(k, false, s, t, s', t', left)
    ensures s' == s
    decreases t
  {
    if !(s' == s && t' == Whole(Error) && left == Children(t)) {
      match t
      case Saving(req, inner) =>
        if !inner.Finished? {
          var inner' :| t' == Saving(req, inner') && Steps(k, false, s, inner, s', inner', left);
          HeededStepKeeps(k, s, inner, s', inner', left);
        }
      case Reducing(op, req, hs, kids) =>
        if !t'.Finished? {
          var i, kid' :| 0 <= i < |kids| && t' == Reducing(op, req, hs, kids[i := kid']) &&
              Steps(k, false, s, kids[i], s', kid', left);
          HeededStepKeeps(k, s, kids[i], s', kid', left);
        }
      case _ =>
    }
  }

  // ----- every step keeps it

  lemma StartVouches(k: Config, op: Operator, req: Request, hs: seq<Handler>, c: Claim)
    requires Fresh(k, req) && Sufficient(k, op, req, hs, c) && forall i :: 0 <= i < |hs| ==> Fits(k, req, hs[i])
    ensures Vouches(k, Start(op, req, hs), c)
  {}

  lemma EntersKeeps(k: Config, req: Request, t: Job, c: Claim)
    requires Enters(k.worlds(req.scope), k.limit, req, t) && Vouches(k, Local(req), c)
    ensures Vouches(k, t, c)
  {
    var e, g := k.worlds(req.scope).env, req.goal;
    TrivialMeets(e, req.visited, g);
    if t.Finished? {
      if Defined(e, g.obj.typ, g.relation) && !SelfDefining(g) && !HasPath(e, g) {
        NoPathMeets(e, req.visited, g);
      }
    } else {
      var rw := RewriteOf(e, g.obj.typ, g.relation);
      forall o | Meets(o, ClaimOfHandler(k, Inner(req), Operand(rw))) ensures Meets(o, c) {
        GoalMeets(e, req.visited, g, o);
      }
    }
  }

  lemma DispatchesKeep(k: Config, req: Request, goals: set<Goal>, t: Job, c: Claim)
    requires Fresh(k, req) && DispatchesAll(req, goals, t)
    requires Refines(SomeClaim(k.worlds(req.scope).env, req.visited, goals), c)
    ensures Vouches(k, t, c)
  {
    var e := k.worlds(req.scope).env;
    var read: seq<Goal>, complete: bool :|
      && (forall g :: g in read ==> g in goals) && (complete ==> forall g :: g in goals ==> g in read)
      && t == Start(OfDispatches(complete), req, SubProblems(read));
    forall outs, r | AllMeet(outs, ClaimsOf(e, req.visited, req.goal, SubProblems(read))) &&
        OperatorResult(OfDispatches(complete), outs, r)
      ensures Meets(r, c)
    {
      UnionOfGoals(e, req.visited, req.goal, goals, read, complete, outs, r);
    }
    StartVouches(k, OfDispatches(complete), req, SubProblems(read), c);
  }

  lemma OperandKeeps(k: Config, live: bool, req: Request, rw: Rewrite, t: Job, c: Claim)
    requires Lawful(k) && k.relied(req.scope, req.goal.user) && ExpandsOperand(k, live, req, rw, t)
    requires Vouches(k, Handling(req, Operand(rw)), c)
    ensures Vouches(k, t, c)
  {
    var w := k.worlds(req.scope);
    var e, g := w.env, req.goal;
    match rw
    case This =>
      DirectHandlersAre(e, g);
      forall outs, r | AllMeet(outs, ClaimsOf(e, req.visited, g, DirectHandlers(e, g))) &&
          OperatorResult(OfUnion, outs, r) ensures Meets(r, c) {
        UnionOfDirectHandlers(e, req.visited, g, outs, r);
      }
      StartVouches(k, OfUnion, req, DirectHandlers(e, g), c);
    case Computed(r) =>
      var child := req.(goal := Goal(g.obj, r, g.user));
      forall o | Meets(o, RequestClaim(k, child)) ensures Meets(o, c) {
        ComputedMeets(e, req.visited, g, r, o);
      }
    case TupleToUserset(ts, r) =>
      forall o | Meets(o, SomeClaim(e, req.visited, TtuGoals(e, g, ts, r))) ensures Meets(o, c) {
        TtuMeets(e, req.visited, g, ts, r, o);
      }
      if DispatchesAll(req, TtuGoals(e, g, ts, r), t) {
        DispatchesKeep(k, req, TtuGoals(e, g, ts, r), t, c);
      }
    case Union(cs) =>
      forall outs, r | AllMeet(outs, ClaimsOf(e, req.visited, g, Operands(cs))) && OperatorResult(OfUnion, outs, r)
        ensures Meets(r, c)
      {
        UnionOfOperands(e, req.visited, g, cs, outs, r);
      }
      StartVouches(k, OfUnion, req, Operands(cs), c);
    case Intersection(cs) =>
      forall outs, r | AllMeet(outs, ClaimsOf(e, req.visited, g, Operands(cs))) &&
          OperatorResult(OfIntersection, outs, r) ensures Meets(r, c) {
        IntersectionOfOperands(e, req.visited, g, cs, outs, r);
      }
      StartVouches(k, OfIntersection, req, Operands(cs), c);
    case Difference(b, s) =>
      ExclusionKeeps(k, req, b, s, c);
      StartVouches(k, OfExclusion, req, [Operand(b), Operand(s)], c);
  }

  lemma ExclusionKeeps(k: Config, req: Request, b: Rewrite, s: Rewrite, c: Claim)
    requires Vouches(k, Handling(req, Operand(Difference(b, s))), c)
    ensures Sufficient(k, OfExclusion, req, [Operand(b), Operand(s)], c)
  {
    var e, g := k.worlds(req.scope).env, req.goal;
    var hs := [Operand(b), Operand(s)];
    ClaimsAre(e, req.visited, g, hs);
    forall outs, r | AllMeet(outs, ClaimsOf(e, req.visited, g, hs)) && OperatorResult(OfExclusion, outs, r)
      ensures Meets(r, c)
    {
      assert hs[0] == Operand(b) && hs[1] == Operand(s);
      ExclusionOfOperands(e, req.visited, g, b, s, outs[0], outs[1], r);
    }
  }

  lemma ExpandsKeeps(k: Config, live: bool, req: Request, h: Handler, t: Job, c: Claim)
    requires Lawful(k) && k.relied(req.scope, req.goal.user) && Expands(k, live, req, h, t)
    requires Vouches(k, Handling(req, h), c)
    ensures Vouches(k, t, c)
  {
    var w := k.worlds(req.scope);
    var e, g := w.env, req.goal;
    match h
    case Operand(rw) => OperandKeeps(k, live, req, rw, t, c);
    case DirectTuple =>
    case PublicTuple =>
    case UsersetTuples =>
      var refs := UsersetRefs(Restrictions(e, g.obj.typ, g.relation));
      var groups := RefGroups(w.types, g, refs);
      if DispatchesAll(req, AllUsersets(e, g), t) {
        DispatchesKeep(k, req, AllUsersets(e, g), t, c);
      } else if t == Start(OfUnion, req, Groups(groups)) {
        forall outs, r | AllMeet(outs, ClaimsOf(e, req.visited, g, Groups(groups))) && OperatorResult(OfUnion, outs, r)
          ensures Meets(r, c)
        {
          UnionOfGroups(e, w.types, req.visited, g, groups, outs, r);
        }
        StartVouches(k, OfUnion, req, Groups(groups), c);
      }
    case UsersetGroup(refs) =>
      if DispatchesAll(req, UsersetGoals(e, g, refs), t) {
        DispatchesKeep(k, req, UsersetGoals(e, g, refs), t, c);
      }
    case SubProblem(goal) =>
  }

  /** The outcomes that were not cut meet the claims of their handlers, and so does an error. */
  lemma TrustedMeet(k: Config, t: Job, c: Claim)
    requires t.Reducing? && Vouches(k, t, c)
    ensures AllMeet(Trusted(t.kids), ClaimsOf(k.worlds(t.req.scope).env, t.req.visited, t.req.goal, t.hs))
  {
    ClaimsAre(k.worlds(t.req.scope).env, t.req.visited, t.req.goal, t.hs);
    forall i | 0 <= i < |t.kids| ensures Meets(Trusted(t.kids)[i], ClaimOfHandler(k, t.req, t.hs[i])) {
      assert Vouches(k, t.kids[i], ClaimOfHandler(k, t.req, t.hs[i]));
    }
  }

  lemma ChildrenAreVouched(k: Config, t: Job, c: Claim)
    requires Vouches(k, t, c)
    ensures forall i :: 0 <= i < |Children(t)| ==> Vouched(k, Children(t)[i])
  {}

  /** An answer served from the cache meets the claim of the request unless it was cut. */
  lemma ServedMeets(k: Config, s: Shared, req: Request)
    requires Sound(k, s) && Fresh(k, req) && !req.higherConsistency && Key(req.scope, req.goal) in s.cache
    requires k.relied(req.scope, req.goal.user) && !s.cache[Key(req.scope, req.goal)].cut
    requires s.cache[Key(req.scope, req.goal)].entry.lastModified > req.lastInvalidation
    ensures Meets(s.cache[Key(req.scope, req.goal)].entry.response, RequestClaim(k, req))
  {
    var key := Key(req.scope, req.goal);
    assert SaysWhatItMeans(k, s, key);
    DefinitiveMeets(k.worlds(req.scope).env, req.visited, req.goal, s.cache[key].entry.response);
  }

  lemma KidReplaced(k: Config, t: Job, i: nat, kid: Job, c: Claim)
    requires t.Reducing? && Vouches(k, t, c) && i < |t.kids| && Vouches(k, kid, ClaimOfHandler(k, t.req, t.hs[i]))
    ensures Vouches(k, t.(kids := t.kids[i := kid]), c)
  {}

  lemma ConcludesKeeps(k: Config, live: bool, t: Job, t': Job, c: Claim)
    requires t.Reducing? && Vouches(k, t, c) && Concludes(live, t.op, t.kids, t')
    ensures Vouches(k, t', c)
  {
    TrustedMeet(k, t, c);
  }

  /** An answer that was not cut and is kept is definitive. */
  lemma SavedKeeps(k: Config, live: bool, s: Shared, t: Job, c: Claim)
    requires t.Saving? && t.inner.Finished? && Sound(k, s) && Vouches(k, t, c)
    ensures Sound(k, Saved(k, live, s, t.req, t.inner.out, t.inner.cut)) && Vouches(k, t.inner, c)
  {
    var s' := Saved(k, live, s, t.req, t.inner.out, t.inner.cut);
    forall key | key in s'.cache && !s'.cache[key].cut ensures SaysWhatItMeans(k, s', key) {
      if key in s.cache && s'.cache[key] == s.cache[key] {
        assert SaysWhatItMeans(k, s, key);
      }
    }
  }

  /** Every step of every job keeps the cache sound and what the job vouches for, whether or not its context is
      live. */
  lemma {:induction false} StepKeeps(k: Config, live: bool, s: Shared, t: Job, s': Shared, t': Job, left: seq<Job>,
                                     c: Claim, scope: Scope, user: Subject)
    requires Sound(k, s) && Vouches(k, t, c) && Steps(k, live, s, t, s', t', left)
    requires Lawful(k) && Concerns(t, scope, user) && k.relied(scope, user)
    ensures Sound(k, s') && Vouches(k, t', c) && forall i :: 0 <= i < |left| ==> Vouched(k, left[i])
    decreases t
  {
    ChildrenAreVouched(k, t, c);
    if !(s' == s && t' == Whole(Error) && left == Children(t)) {
      match t
      case Cached(req) =>
        if t'.Finished? && !t'.cut { ServedMeets(k, s, req); }
      case Local(req) => EntersKeeps(k, req, t', c);
      case Saving(req, inner) =>
        if inner.Finished? {
          SavedKeeps(k, live, s, t, c);
        } else {
          var inner' :| t' == Saving(req, inner') && Steps(k, live, s, inner, s', inner', left);
          StepKeeps(k, live, s, inner, s', inner', left, RequestClaim(k, req), scope, user);
        }
      case Handling(req, h) => ExpandsKeeps(k, live, req, h, t', c);
      case Reducing(op, req, hs, kids) =>
        if Concludes(live, op, kids, t') {
          ConcludesKeeps(k, live, t, t', c);
        } else {
          var i, kid' :| 0 <= i < |kids| && t' == Reducing(op, req, hs, kids[i := kid']) &&
              Steps(k, live, s, kids[i], s', kid', left);
          StepKeeps(k, live, s, kids[i], s', kid', left, ClaimOfHandler(k, req, hs[i]), scope, user);
          KidReplaced(k, t, i, kid', c);
        }
      case Finished(_, _) =>
    }
  }

  /** Work about a user whose answers cannot be relied on does no harm to the others. */
  lemma OthersStaySound(k: Config, s: Shared, s': Shared, scope: Scope, user: Subject)
    requires Sound(k, s) && OnlyWrites(s, s', scope, user) && !k.relied(scope, user)
    ensures Sound(k, s')
  {
    forall key | key in s'.cache && !s'.cache[key].cut ensures SaysWhatItMeans(k, s', key) {
      if key in s.cache && s'.cache[key] == s.cache[key] {
        assert SaysWhatItMeans(k, s, key);
      }
    }
  }

  // ----- whole runs

  /** A request from outside, the job that works on it, and whether its client still waits. */
  datatype Root = Root(req: Request, job: Job, live: bool)

  /** The requests, and the jobs that nobody waits for any more. */
  datatype State = State(shared: Shared, roots: seq<Root>, strays: seq<Job>)

  ghost predicate Init(k: Config, s: State) {
    k.changed < s.shared.now && s.shared.cache == map[] && s.roots == [] && s.strays == []
  }

  ghost predicate RootSteps(k: Config, s: State, s': State, i: nat, t': Job, left: seq<Job>) {
    && i < |s.roots| && Steps(k, s.roots[i].live, s.shared, s.roots[i].job, s'.shared, t', left)
    && s'.roots == s.roots[i := s.roots[i].(job := t')] && s'.strays == s.strays + left
  }

  ghost predicate StraySteps(k: Config, s: State, s': State, i: nat, t': Job, left: seq<Job>) {
    && i < |s.strays| && Steps(k, false, s.shared, s.strays[i], s'.shared, t', left)
    && s'.roots == s.roots && s'.strays == s.strays[i := t'] + left
  }

  /** The client gives up, or its time is over. */
  ghost predicate GivesUp(s: State, s': State, i: nat) {
    i < |s.roots| && s' == s.(roots := s.roots[i := s.roots[i].(live := false)])
  }

  /** A request arrives; it knows of every invalidation up to the last change, or does without the cache. */
  ghost predicate Arrives(k: Config, s: State, s': State, req: Request) {
    && Fresh(k, req) && s'.shared == s.shared && s'.strays == s.strays
    && (s'.roots == s.roots + [Root(req, Cached(req), true)] || s'.roots == s.roots + [Root(req, Local(req), true)])
  }

  /** Time passes, and entries expire or are evicted. */
  ghost predicate Elapses(s: State, s': State) {
    && s'.roots == s.roots && s'.strays == s.strays && s.shared.now <= s'.shared.now
    && forall key :: key in s'.shared.cache ==> key in s.shared.cache && s'.shared.cache[key] == s.shared.cache[key]
  }

  ghost predicate Next(k: Config, s: State, s': State) {
    || (exists i, t', left :: RootSteps(k, s, s', i, t', left))
    || (exists i, t', left :: StraySteps(k, s, s', i, t', left))
    || (exists req :: Arrives(k, s, s', req))
    || (exists i :: GivesUp(s, s', i))
    || Elapses(s, s')
  }

  ghost predicate IsRun(k: Config, run: seq<State>) {
    |run| >= 1 && Init(k, run[0]) && forall i :: 0 <= i < |run| - 1 ==> Next(k, run[i], run[i + 1])
  }

  ghost predicate Reachable(k: Config, s: State) {
    exists run :: IsRun(k, run) && run[|run| - 1] == s
  }

  /** The job works for the request, and vouches for what is asked if the answers about the user can be
      relied on. */
  ghost predicate WorksFor(k: Config, r: Root) {
    var scope, user := r.req.scope, r.req.goal.user;
    Concerns(r.job, scope, user) && (k.relied(scope, user) ==> Vouches(k, r.job, RequestClaim(k, r.req)))
  }

  ghost predicate IsStray(k: Config, t: Job) {
    exists scope, user :: IsStrayOf(k, t, scope, user)
  }

  ghost predicate IsStrayOf(k: Config, t: Job, scope: Scope, user: Subject) {
    Concerns(t, scope, user) && (k.relied(scope, user) ==> Vouched(k, t))
  }

  /** Neither the cache nor a request whose client still waits has anything that was cut. */
  ghost predicate IsWhole(s: State) {
    AllUncut(s.shared) && forall i :: 0 <= i < |s.roots| && s.roots[i].live ==> Uncut(s.roots[i].job)
  }

  ghost predicate Inv(k: Config, s: State) {
    && Sound(k, s.shared)
    && (forall i :: 0 <= i < |s.roots| ==> WorksFor(k, s.roots[i]))
    && (forall i :: 0 <= i < |s.strays| ==> IsStray(k, s.strays[i]))
    && (k.heeds ==> IsWhole(s))
  }

  lemma LeftAreStrays(k: Config, left: seq<Job>, scope: Scope, user: Subject)
    requires forall i :: 0 <= i < |left| ==> Concerns(left[i], scope, user)
    requires k.relied(scope, user) ==> forall i :: 0 <= i < |left| ==> Vouched(k, left[i])
    ensures forall i :: 0 <= i < |left| ==> IsStray(k, left[i])
  {
    forall i | 0 <= i < |left| ensures IsStray(k, left[i]) {
      assert IsStrayOf(k, left[i], scope, user);
    }
  }

  lemma RootKeeps(k: Config, s: State, s': State, i: nat, t': Job, left: seq<Job>)
    requires Lawful(k) && Inv(k, s) && RootSteps(k, s, s', i, t', left)
    ensures Inv(k, s')
  {
    var r := s.roots[i];
    var scope, user := r.req.scope, r.req.goal.user;
    assert WorksFor(k, r);
    StepConcerns(k, r.live, s.shared, r.job, s'.shared, t', left, scope, user);
    if k.relied(scope, user) {
      StepKeeps(k, r.live, s.shared, r.job, s'.shared, t', left, RequestClaim(k, r.req), scope, user);
    } else {
      OthersStaySound(k, s.shared, s'.shared, scope, user);
    }
    LeftAreStrays(k, left, scope, user);
    if k.heeds {
      if r.live {
        LiveStepIsUncut(k, s.shared, r.job, s'.shared, t', left);
      } else {
        HeededStepKeeps(k, s.shared, r.job, s'.shared, t', left);
      }
    }
  }

  lemma StrayKeeps(k: Config, s: State, s': State, i: nat, t': Job, left: seq<Job>)
    requires Lawful(k) && Inv(k, s) && StraySteps(k, s, s', i, t', left)
    ensures Inv(k, s')
  {
    var t := s.strays[i];
    assert IsStray(k, t);
    var scope, user :| IsStrayOf(k, t, scope, user);
    StepConcerns(k, false, s.shared, t, s'.shared, t', left, scope, user);
    if k.relied(scope, user) {
      var c :| Vouches(k, t, c);
      StepKeeps(k, false, s.shared, t, s'.shared, t', left, c, scope, user);
    } else {
      OthersStaySound(k, s.shared, s'.shared, scope, user);
    }
    assert IsStrayOf(k, t', scope, user);
    LeftAreStrays(k, left, scope, user);
    if k.heeds {
      HeededStepKeeps(k, s.shared, t, s'.shared, t', left);
    }
  }

  lemma OtherKeeps(k: Config, s: State, s': State)
    requires Inv(k, s)
    requires (exists req :: Arrives(k, s, s', req)) || (exists i :: GivesUp(s, s', i)) || Elapses(s, s')
    ensures Inv(k, s')
  {
    if i: nat :| GivesUp(s, s', i) {
      forall j | 0 <= j < |s'.roots| ensures WorksFor(k, s'.roots[j]) {
        assert WorksFor(k, s.roots[j]);
      }
    } else if Elapses(s, s') {
      forall key | key in s'.shared.cache && !s'.shared.cache[key].cut ensures SaysWhatItMeans(k, s'.shared, key) {
        assert SaysWhatItMeans(k, s.shared, key);
      }
    }
  }

  lemma NextKeeps(k: Config, s: State, s': State)
    requires Lawful(k) && Inv(k, s) && Next(k, s, s')
    ensures Inv(k, s')
  {
    if i: nat, t', left :| RootSteps(k, s, s', i, t', left) {
      RootKeeps(k, s, s', i, t', left);
    } else if i: nat, t', left :| StraySteps(k, s, s', i, t', left) {
      StrayKeeps(k, s, s', i, t', left);
    } else {
      OtherKeeps(k, s, s');
    }
  }

  lemma {:induction false} RunKeeps(k: Config, run: seq<State>)
    requires Lawful(k) && IsRun(k, run)
    ensures Inv(k, run[|run| - 1])
    decreases |run|
  {
    if |run| > 1 {
      var n := |run| - 1;
      forall i | 0 <= i < |run[..n]| - 1 ensures Next(k, run[..n][i], run[..n][i + 1]) {
        assert Next(k, run[i], run[i + 1]);
      }
      RunKeeps(k, run[..n]);
      assert Next(k, run[n - 1], run[n - 1 + 1]);
      NextKeeps(k, run[n - 1], run[n]);
    }
  }

  /** In every reachable state the cache holds only what goals mean, whatever requests run, however their
      steps interleave and whichever are given up, but for entries that were cut. */
  lemma CacheIsTruthful(k: Config, s: State, key: Key)
    requires Sane(k) && Reachable(k, s) && key in s.shared.cache && !s.shared.cache[key].cut
    requires s.shared.cache[key].entry.lastModified > k.changed && k.relied(key.scope, key.goal.user)
    ensures Definitive(k.worlds(key.scope).env, key.goal, s.shared.cache[key].entry.response)
  {
    var run :| IsRun(k, run) && run[|run| - 1] == s;
    SaneIsLawful(k);
    RunKeeps(k, run);
    assert SaysWhatItMeans(k, s.shared, key);
  }

  /** If the cache heeds contexts, nothing that it holds or that a waiting client gets was ever cut. */
  lemma NothingIsCut(k: Config, s: State)
    requires Sane(k) && k.heeds && Reachable(k, s)
    ensures IsWhole(s)
  {
    var run :| IsRun(k, run) && run[|run| - 1] == s;
    SaneIsLawful(k);
    RunKeeps(k, run);
  }

  /** The request has been answered by something that was not cut. */
  predicate IsAnswered(r: Root) {
    r.job.Finished? && r.job.out.Answer? && !r.job.cut
  }

  /** In every reachable state, two requests for one goal that have been answered without a cycle have the
      same answer, and it is the truth; and a request on its own in a model without exclusion, or for a goal
      that never comes back to itself, has been answered by the truth or an error. */
  lemma AnswersAreTrue(k: Config, s: State, i: nat, j: nat)
    requires Sane(k) && Reachable(k, s) && i < |s.roots| && j < |s.roots| && IsAnswered(s.roots[i])
    requires k.relied(s.roots[i].req.scope, s.roots[i].req.goal.user)
    ensures !s.roots[i].job.out.cycle ==>
            Definitive(k.worlds(s.roots[i].req.scope).env, s.roots[i].req.goal, s.roots[i].job.out)
    ensures IsAnswered(s.roots[j]) && !s.roots[i].job.out.cycle && !s.roots[j].job.out.cycle &&
            s.roots[i].req.scope == s.roots[j].req.scope && s.roots[i].req.goal == s.roots[j].req.goal ==>
              s.roots[i].job.out == s.roots[j].job.out
    ensures s.roots[i].req.visited == {} && ExclusionFree(k.worlds(s.roots[i].req.scope).env) ==>
              (s.roots[i].job.out.allowed <==> IsTrue(k.worlds(s.roots[i].req.scope).env, s.roots[i].req.goal))
    ensures IsLoopless(k.worlds(s.roots[i].req.scope).env, s.roots[i].req.visited, s.roots[i].req.goal) ==>
              Definitive(k.worlds(s.roots[i].req.scope).env, s.roots[i].req.goal, s.roots[i].job.out)
  {
    var run :| IsRun(k, run) && run[|run| - 1] == s;
    SaneIsLawful(k);
    RunKeeps(k, run);
    var a, b := s.roots[i], s.roots[j];
    assert WorksFor(k, a) && WorksFor(k, b);
    var e := k.worlds(a.req.scope).env;
    if a.req.visited == {} && ExclusionFree(e) {
      NoFalseDenial(e, a.req.goal, a.job.out);
    }
    if IsLoopless(e, a.req.visited, a.req.goal) {
      LooplessIsDecided(e, a.req.visited, a.req.goal, a.job.out);
    }
    if IsAnswered(b) && !a.job.out.cycle && !b.job.out.cycle && a.req.scope == b.req.scope &&
        a.req.goal == b.req.goal {
      CycleFreeAnswersAgree(e, a.req.goal, a.req.visited, b.req.visited, a.job.out, b.job.out);
    }
  }
}
