/** A run of the machine in which work that nobody waits for any more spoils the cache, although no client has
    given up, and what follows about the cache. */
module CancelExample {
  import opened Model
  import opened Semantics
  import opened Reducers
  import opened Claims
  import opened LeafReads
  import opened FastPath
  import opened Handlers
  import opened Check
  import opened Ring
  import opened RingRuns

  const USER: TypeName := TypeName("user")
  const GROUP: TypeName := TypeName("group")
  const DOC: TypeName := TypeName("document")
  const MEMBER: RelationName := RelationName("member")
  const ENROLLED: RelationName := RelationName("enrolled")
  const ACTIVE: RelationName := RelationName("active")
  const VIEWER: RelationName := RelationName("viewer")
  const ANNE: Subject := User(Object(TypeName("user"), 1))
  const TEAM: Object := Object(TypeName("group"), 1)
  const PLAN: Object := Object(TypeName("document"), 1)
  const MEMBERS: Ref := UsersetRef(TypeName("group"), RelationName("member"))

  /** Members of a group are those enrolled in it and active; viewers of a document are users and members of
      groups. */
  function Relations(): map<(TypeName, RelationName), RelationDef> {
    map[(GROUP, ENROLLED) := RelationDef(This, [TypeRef(USER)]),
        (GROUP, ACTIVE) := RelationDef(This, [TypeRef(USER)]),
        (GROUP, MEMBER) := RelationDef(Both(), []),
        (DOC, VIEWER) := RelationDef(This, [TypeRef(USER), MEMBERS])]
  }

  function Both(): Rewrite {
    Intersection([Computed(ENROLLED), Computed(ACTIVE)])
  }

  /** Anne views the plan, and so do the members of the team, in which she is enrolled but not active. */
  function Tuples(): set<Tuple> {
    {Tuple(PLAN, VIEWER, ANNE), Tuple(PLAN, VIEWER, Userset(TEAM, MEMBER)), Tuple(TEAM, ENROLLED, ANNE)}
  }

  function TheEnv(): Env {
    Env(Relations(), Tuples(), {(TypeRef(USER), DOC, VIEWER), (TypeRef(USER), GROUP, MEMBER),
                                (TypeRef(USER), GROUP, ENROLLED), (TypeRef(USER), GROUP, ACTIVE)})
  }

  /** No fast strategy is offered. */
  const TYPES: TypeSystem := TypeSystem((t, r, ut, q) => false, (t, r, ut) => false, (t, r, ut, rw) => false,
                                        (t, r, ut, rw) => false)

  function TheWorld(): World {
    World(TheEnv(), (t, r) => 0, AllCount({}, Tuples()), TYPES, false)
  }

  function TheConfig(): Config {
    Config(scope => TheWorld(), 0, 25, (scope, user) => true, false)
  }

  lemma ConfigIsSane()
    ensures Sane(TheConfig())
  {
    var e := TheEnv();
    assert Restrictions(e, DOC, VIEWER) == [TypeRef(USER), MEMBERS];
    assert Restrictions(e, GROUP, ENROLLED) == [TypeRef(USER)];
    forall user: Subject ensures Assumptions(TheWorld(), user) {}
  }

  // ----- what the goals mean

  function Views(): Goal {
    Goal(PLAN, VIEWER, ANNE)
  }

  function IsIn(r: RelationName): Goal {
    Goal(TEAM, r, ANNE)
  }

  lemma AnneIsNoMember()
    ensures !IsTrue(TheEnv(), IsIn(MEMBER))
  {
    var e := TheEnv();
    assert Restrictions(e, GROUP, ACTIVE) == [TypeRef(USER)];
    assert AllUsersets(e, IsIn(ACTIVE)) == {};
    assert FailsRw(e, 0, iset{}, IsIn(ACTIVE), This);
    GoalFalse(e, IsIn(ACTIVE));
    var n: nat :| Fails(e, n, IsIn(ACTIVE));
    assert FailsRw(e, n, iset{}, IsIn(MEMBER), Both().children[1]);
    assert FailsRw(e, n, iset{}, IsIn(MEMBER), Both());
    GoalFalse(e, IsIn(MEMBER));
    if IsTrue(e, IsIn(MEMBER)) {
      TrueIsNotFalse(e, IsIn(MEMBER));
    }
  }

  // ----- the request: the direct tuple settles it while the question about the team is under way

  const SCOPE: Scope := Scope("", "", {}, "")

  function Asks(g: Goal): Request {
    Request(SCOPE, g, {}, 0, false, 0)
  }

  /** The request for the question about the team. */
  function TeamRequest(): Request {
    Inner(Asks(Views())).Child(IsIn(MEMBER))
  }

  /** The work on that question, which the reducer leaves behind. */
  function TeamWork(t: Job): Job {
    Reducing(OfDispatches(true), Inner(Asks(Views())), SubProblems([IsIn(MEMBER)]), [Saving(TeamRequest(), t)])
  }

  lemma ViewHandlers()
    ensures DirectHandlers(TheEnv(), Views()) == [DirectTuple, UsersetTuples]
    ensures AllUsersets(TheEnv(), Views()) == {IsIn(MEMBER)}
  {
    var e, refs := TheEnv(), Restrictions(TheEnv(), DOC, VIEWER);
    assert refs == [TypeRef(USER), MEMBERS];
    assert MEMBERS in UsersetRefs(refs);
    var t := Tuple(PLAN, VIEWER, Userset(TEAM, MEMBER));
    assert t in e.tuples && RefOf(t.subject) in refs;
  }

  /** The request that the handlers of that question work for. */
  function TeamInner(): Request {
    Inner(TeamRequest())
  }

  /** The question about one of the two relations: its tuple has been looked up. */
  function LookedUp(r: RelationName, found: bool): Job {
    Reducing(OfUnion, Inner(TeamInner().(goal := IsIn(r))), [DirectTuple], [Whole(Answer(found, false))])
  }

  /** The work on the team when it is left behind: anne is enrolled, and the other outcome is on its way. */
  function HalfDone(): Job {
    Reducing(OfIntersection, TeamInner(), Operands(Both().children),
             [Whole(Answer(true, false)), LookedUp(ACTIVE, false)])
  }

  lemma TeamHandlers(r: RelationName)
    requires r == ENROLLED || r == ACTIVE
    ensures DirectHandlers(TheEnv(), IsIn(r)) == [DirectTuple]
  {
    var refs := Restrictions(TheEnv(), GROUP, r);
    assert refs == [TypeRef(USER)];
    assert UsersetRefs(refs) == [];
  }

  /** A direct relation of the team is looked up. */
  lemma LooksUp(s: Shared, r: RelationName, found: bool)
    requires (r == ENROLLED || r == ACTIVE) && (found <==> r == ENROLLED)
    ensures GetsTo(TheConfig(), true, s, Handling(TeamInner(), Operand(Computed(r))), LookedUp(r, found))
  {
    var k, child := TheConfig(), TeamInner().(goal := IsIn(r));
    OneStep(k, true, s, Handling(TeamInner(), Operand(Computed(r))), Local(child), []);
    OneStep(k, true, s, Local(child), Handling(Inner(child), Operand(This)), []);
    ReadsTuple(s, Inner(child), r, found);
    Then(k, true, s, Handling(TeamInner(), Operand(Computed(r))), Local(child), Handling(Inner(child), Operand(This)));
    Then(k, true, s, Handling(TeamInner(), Operand(Computed(r))), Handling(Inner(child), Operand(This)),
         LookedUp(r, found));
  }

  lemma ReadsTuple(s: Shared, inner: Request, r: RelationName, found: bool)
    requires (r == ENROLLED || r == ACTIVE) && inner.goal == IsIn(r) && (found <==> r == ENROLLED)
    ensures GetsTo(TheConfig(), true, s, Handling(inner, Operand(This)),
                   Reducing(OfUnion, inner, [DirectTuple], [Whole(Answer(found, false))]))
  {
    var k, o := TheConfig(), Whole(Answer(found, false));
    TeamHandlers(r);
    var direct := Start(OfUnion, inner, [DirectTuple]);
    assert direct.kids == [Handling(inner, DirectTuple)];
    OneStep(k, true, s, Handling(inner, Operand(This)), direct, []);
    OneStep(k, true, s, direct.kids[0], o, []);
    KidGetsTo(k, true, s, direct, 0, o);
    assert direct.kids[0 := o] == [o];
    Then(k, true, s, Handling(inner, Operand(This)), direct, direct.(kids := [o]));
  }

  /** The union over that one outcome, whether or not anybody waits for it. */
  lemma LookUpEnds(live: bool, s: Shared, r: RelationName, found: bool)
    ensures GetsTo(TheConfig(), live, s, LookedUp(r, found), Whole(Answer(found, false)))
  {
    var o, t := Answer(found, false), LookedUp(r, found);
    assert Arrived(t.kids) == [o] && Trusted(t.kids) == [o];
    assert UnionResult([o], o) by {
      assert found ==> [o][0].Allowed();
    }
    OneStep(TheConfig(), live, s, t, Whole(o), t.kids);
  }

  lemma HalfGetsDone(s: Shared)
    ensures GetsTo(TheConfig(), true, s, Handling(TeamInner(), Operand(Both())), HalfDone())
  {
    var k, cs := TheConfig(), Both().children;
    var t := Start(OfIntersection, TeamInner(), Operands(cs));
    assert t.kids == [Handling(TeamInner(), Operand(Computed(ENROLLED))),
                      Handling(TeamInner(), Operand(Computed(ACTIVE)))];
    OneStep(k, true, s, Handling(TeamInner(), Operand(Both())), t, []);
    LooksUp(s, ENROLLED, true);
    LookUpEnds(true, s, ENROLLED, true);
    Then(k, true, s, t.kids[0], LookedUp(ENROLLED, true), Whole(Answer(true, false)));
    LooksUp(s, ACTIVE, false);
    TwoGetOn(s, t, Whole(Answer(true, false)), LookedUp(ACTIVE, false));
    Then(k, true, s, Handling(TeamInner(), Operand(Both())), t, HalfDone());
  }

  /** Both handlers of a reducer have come further. */
  lemma TwoGetOn(s: Shared, t: Job, a: Job, b: Job)
    requires t.Reducing? && |t.kids| == 2
    requires GetsTo(TheConfig(), true, s, t.kids[0], a) && GetsTo(TheConfig(), true, s, t.kids[1], b)
    ensures GetsTo(TheConfig(), true, s, t, t.(kids := [a, b]))
  {
    var k := TheConfig();
    KidGetsTo(k, true, s, t, 0, a);
    var t1 := t.(kids := t.kids[0 := a]);
    KidGetsTo(k, true, s, t1, 1, b);
    assert t1.kids[1 := b] == [a, b];
    Then(k, true, s, t, t1, t.(kids := [a, b]));
  }

  lemma TeamIsAsked(s: Shared)
    requires s.cache == map[]
    ensures GetsTo(TheConfig(), true, s, Handling(Inner(Asks(Views())), SubProblem(IsIn(MEMBER))),
                   Saving(TeamRequest(), Handling(TeamInner(), Operand(Both()))))
  {
    var k, child, first := TheConfig(), TeamRequest(), Handling(TeamInner(), Operand(Both()));
    var sub := Handling(Inner(Asks(Views())), SubProblem(IsIn(MEMBER)));
    OneStep(k, true, s, sub, Cached(child), []);
    OneStep(k, true, s, Cached(child), Saving(child, Local(child)), []);
    OneStep(k, true, s, Local(child), first, []);
    InnerGetsTo(k, true, s, child, Local(child), first);
    Then(k, true, s, sub, Cached(child), Saving(child, Local(child)));
    Then(k, true, s, sub, Saving(child, Local(child)), Saving(child, first));
  }

  lemma TeamIsHalfDone(s: Shared)
    requires s.cache == map[]
    ensures GetsTo(TheConfig(), true, s, Handling(Inner(Asks(Views())), SubProblem(IsIn(MEMBER))),
                   Saving(TeamRequest(), HalfDone()))
  {
    var k, first := TheConfig(), Handling(TeamInner(), Operand(Both()));
    TeamIsAsked(s);
    HalfGetsDone(s);
    InnerGetsTo(k, true, s, TeamRequest(), first, HalfDone());
    Then(k, true, s, Handling(Inner(Asks(Views())), SubProblem(IsIn(MEMBER))), Saving(TeamRequest(), first),
         Saving(TeamRequest(), HalfDone()));
  }

  lemma TeamWorkStarts(s: Shared)
    requires s.cache == map[]
    ensures GetsTo(TheConfig(), true, s, Handling(Inner(Asks(Views())), UsersetTuples), TeamWork(HalfDone()))
  {
    var k, inner := TheConfig(), Inner(Asks(Views()));
    ViewHandlers();
    var dispatch := Start(OfDispatches(true), inner, SubProblems([IsIn(MEMBER)]));
    assert DispatchesAll(inner, AllUsersets(TheEnv(), inner.goal), dispatch);
    OneStep(k, true, s, Handling(inner, UsersetTuples), dispatch, []);
    assert dispatch.kids[0] == Handling(inner, SubProblem(IsIn(MEMBER)));
    TeamIsHalfDone(s);
    KidGetsTo(k, true, s, dispatch, 0, Saving(TeamRequest(), HalfDone()));
    assert dispatch.kids[0 := Saving(TeamRequest(), HalfDone())] == TeamWork(HalfDone()).kids;
    Then(k, true, s, Handling(inner, UsersetTuples), dispatch, TeamWork(HalfDone()));
  }

  /** The union of the handlers, when the direct tuple has been found. */
  function Settled(): Job {
    var inner := Inner(Asks(Views()));
    Reducing(OfUnion, inner, [DirectTuple, UsersetTuples],
             [Whole(Answer(true, false)), TeamWork(HalfDone())])
  }

  lemma ViewIsSettled(s: Shared)
    requires s.cache == map[]
    ensures GetsTo(TheConfig(), true, s, Local(Asks(Views())), Settled())
  {
    var k, req := TheConfig(), Asks(Views());
    var inner := Inner(req);
    OneStep(k, true, s, Local(req), Handling(inner, Operand(This)), []);
    DirectIsSettled(s);
    Then(k, true, s, Local(req), Handling(inner, Operand(This)), Settled());
  }

  lemma DirectIsSettled(s: Shared)
    requires s.cache == map[]
    ensures GetsTo(TheConfig(), true, s, Handling(Inner(Asks(Views())), Operand(This)), Settled())
  {
    var k, inner := TheConfig(), Inner(Asks(Views()));
    ViewHandlers();
    var direct := Start(OfUnion, inner, DirectHandlers(TheEnv(), inner.goal));
    assert direct.kids == [Handling(inner, DirectTuple), Handling(inner, UsersetTuples)];
    OneStep(k, true, s, Handling(inner, Operand(This)), direct, []);
    OneStep(k, true, s, direct.kids[0], Whole(Answer(true, false)), []);
    TeamWorkStarts(s);
    TwoGetOn(s, direct, Whole(Answer(true, false)), TeamWork(HalfDone()));
    Then(k, true, s, Handling(inner, Operand(This)), direct, Settled());
  }

  lemma ViewIsAnswered(s: Shared)
    ensures Steps(TheConfig(), true, s, Settled(), s, Whole(Answer(true, false)), Settled().kids)
  {
    var kids := Settled().kids;
    assert Arrived(kids) == [Answer(true, false), Error] && Trusted(kids) == [Answer(true, false), Error];
    assert [Answer(true, false), Error][0].Allowed();
  }

  // ----- the work left behind

  const CUT: Job := Finished(Answer(true, false), true)

  /** The second outcome gets lost, and the intersection allows. */
  lemma HalfIsTakenForAll(s: Shared)
    ensures GetsTo(TheConfig(), false, s, HalfDone(), CUT)
  {
    var k, t := TheConfig(), HalfDone();
    LookUpEnds(false, s, ACTIVE, false);
    KidGetsTo(k, false, s, t, 1, Whole(DENIED));
    var t2 := t.(kids := t.kids[1 := Whole(DENIED)]);
    assert t2.kids == [Whole(Answer(true, false)), Whole(DENIED)];
    ConcludesFromHalf(t2.kids);
    OneStep(k, false, s, t2, CUT, t2.kids);
    Then(k, false, s, t, t2, CUT);
  }

  lemma ConcludesFromHalf(kids: seq<Job>)
    requires kids == [Whole(Answer(true, false)), Whole(DENIED)]
    ensures Concludes(false, OfIntersection, kids, CUT)
  {
    var outs, part := [Answer(true, false), DENIED], [Answer(true, false)];
    assert Arrived(kids) == outs && Trusted(kids) == outs;
    assert outs[1].StopsBase();
    assert multiset(part) <= multiset(outs) by {
      assert outs == part + [DENIED];
    }
    assert AllAllowedResult(part, Answer(true, false));
    assert LoopResult(OfIntersection, 2, part, Answer(true, false));
  }

  // ----- in the machine

  /** Anne's request has been answered, and the work on the team is left behind. */
  lemma TeamWorkIsLeft() returns (s: State)
    ensures Reachable(TheConfig(), s) && s.shared == Shared(map[], 1)
    ensures s.roots == [Root(Asks(Views()), Whole(Answer(true, false)), true)]
    ensures |s.strays| >= 1 && s.strays[|s.strays| - 1] == TeamWork(HalfDone())
  {
    var k := TheConfig();
    s := StartIsReachable(k);
    s := ArrivesNext(k, s, Asks(Views()), Local(Asks(Views())));
    ViewIsSettled(s.shared);
    s := RootGetsTo(k, s, 0, Settled());
    ViewIsAnswered(s.shared);
    s := RootMoves(k, s, 0, Whole(Answer(true, false)), s.shared, Settled().kids);
  }

  lemma TeamWorkEnds(s: Shared)
    ensures GetsTo(TheConfig(), false, s, TeamWork(HalfDone()), TeamWork(CUT))
  {
    var k, req, work := TheConfig(), TeamRequest(), TeamWork(HalfDone());
    HalfIsTakenForAll(s);
    InnerGetsTo(k, false, s, req, HalfDone(), CUT);
    KidGetsTo(k, false, s, work, 0, Saving(req, CUT));
    assert work.kids[0 := Saving(req, CUT)] == TeamWork(CUT).kids;
  }

  lemma TeamWorkIsKept(s: Shared) returns (s': Shared, t: Job)
    ensures Steps(TheConfig(), false, s, TeamWork(CUT), s', t, [])
    ensures s' == s.(cache := s.cache[Key(SCOPE, IsIn(MEMBER)) := Kept(Entry(s.now, Answer(true, false)), true)])
  {
    var k, work := TheConfig(), TeamWork(CUT);
    s' := Saved(k, false, s, TeamRequest(), Answer(true, false), true);
    assert Steps(k, false, s, work.kids[0], s', CUT, []);
    t := work.(kids := work.kids[0 := CUT]);
  }

  /** That work has come to its answer and keeps it. */
  lemma CacheIsSpoilt() returns (s: State)
    ensures Reachable(TheConfig(), s) && s.roots == [Root(Asks(Views()), Whole(Answer(true, false)), true)]
    ensures s.shared == Shared(map[Key(SCOPE, IsIn(MEMBER)) := Kept(Entry(1, Answer(true, false)), true)], 1)
  {
    var k := TheConfig();
    s := TeamWorkIsLeft();
    var i := |s.strays| - 1;
    TeamWorkEnds(s.shared);
    s := StrayGetsTo(k, s, i, TeamWork(CUT));
    var shared, t := TeamWorkIsKept(s.shared);
    s := StrayMoves(k, s, i, t, shared, []);
  }

  /** A reachable state in which no client has given up, a request for a goal that is not true has been allowed
      without the flag of a cycle, and its entry in the cache is wrong. */
  lemma WorkLeftBehindSpoilsTheCache() returns (s: State)
    ensures Sane(TheConfig()) && Reachable(TheConfig(), s)
    ensures forall i :: 0 <= i < |s.roots| ==> s.roots[i].live
    ensures |s.roots| == 2 && s.roots[1].job.Finished? && s.roots[1].job.out == Answer(true, false)
    ensures var key := Key(s.roots[1].req.scope, s.roots[1].req.goal);
            && !IsTrue(TheEnv(), key.goal) && key in s.shared.cache
            && !SaysWhatItMeans(TheConfig(), s.shared, key)
  {
    var k, g := TheConfig(), IsIn(MEMBER);
    ConfigIsSane();
    AnneIsNoMember();
    s := CacheIsSpoilt();
    s := ArrivesNext(k, s, Asks(g), Cached(Asks(g)));
    assert s.roots[1] == Root(Asks(g), Cached(Asks(g)), true);
    s := RootMoves(k, s, 1, CUT, s.shared, []);
  }

  // ----- exactly when the cache is right

  /** Every entry says what its goal means, unless it is older than the last change or about a user who cannot
      be relied on. */
  ghost predicate AllRight(k: Config, s: Shared) {
    forall key :: key in s.cache ==> SaysWhatItMeans(k, s, key)
  }

  /** The cache is right in every reachable state of every configuration if and only if it heeds the context
      of a request before it keeps the answer. */
  lemma CacheIsRightIffHeeded(heeds: bool)
    ensures heeds <==>
            forall k: Config, s: State :: k.heeds == heeds && Sane(k) && Reachable(k, s) ==> AllRight(k, s.shared)
  {
    if heeds {
      forall k: Config, s: State | k.heeds == heeds && Sane(k) && Reachable(k, s) ensures AllRight(k, s.shared) {
        forall key | key in s.shared.cache ensures SaysWhatItMeans(k, s.shared, key) {
          NothingIsCut(k, s);
          EntryIsRight(k, s, key);
        }
      }
    } else {
      var s := WorkLeftBehindSpoilsTheCache();
      assert !AllRight(TheConfig(), s.shared);
    }
  }

  lemma EntryIsRight(k: Config, s: State, key: Key)
    requires Sane(k) && Reachable(k, s) && key in s.shared.cache && !s.shared.cache[key].cut
    ensures SaysWhatItMeans(k, s.shared, key)
  {
    if s.shared.cache[key].entry.lastModified > k.changed && k.relied(key.scope, key.goal.user) {
      CacheIsTruthful(k, s, key);
    }
  }
}
