/** A run of the machine in which a true goal is denied, under the flag of a cycle.  Nobody is blocked from
    either of two documents, but to find that out the checker comes back to the question it started from,
    and the exclusion takes the cut-off answer for a denial. */
module RingExample {
  import opened Model
  import opened Semantics
  import opened Reducers
  import opened Claims
  import opened LeafReads
  import opened FastPath
  import opened FastPathMeaning
  import opened Weight2
  import opened Recursive
  import opened RecursiveMeaning
  import opened Handlers
  import opened Check
  import opened Ring
  import opened RingRuns

  const USER: TypeName := TypeName("user")
  const DOC: TypeName := TypeName("document")
  const VIEWER: RelationName := RelationName("viewer")
  const BLOCKED: RelationName := RelationName("blocked")
  const ANNE: Subject := User(Object(TypeName("user"), 1))

  function Doc(x: nat): Object {
    Object(DOC, x)
  }

  /** Viewers of a document are users but not those blocked; blocked are users and those blocked from
      other documents. */
  function Relations(): map<(TypeName, RelationName), RelationDef> {
    map[(DOC, VIEWER) := RelationDef(Difference(This, Computed(BLOCKED)), [TypeRef(USER)]),
        (DOC, BLOCKED) := RelationDef(This, [TypeRef(USER), UsersetRef(DOC, BLOCKED)])]
  }

  /** Whoever is blocked from one of the two documents is blocked from the other. */
  function Tuples(): set<Tuple> {
    {Tuple(Doc(1), VIEWER, ANNE), Tuple(Doc(1), BLOCKED, Userset(Doc(2), BLOCKED)),
        Tuple(Doc(2), BLOCKED, Userset(Doc(1), BLOCKED))}
  }

  function TheEnv(): Env {
    Env(Relations(), Tuples(), {(TypeRef(USER), DOC, VIEWER), (TypeRef(USER), DOC, BLOCKED),
                                (UsersetRef(DOC, BLOCKED), DOC, BLOCKED), (UsersetRef(DOC, BLOCKED), DOC, VIEWER)})
  }

  const RANK: Rank := (t, r) => if r == VIEWER then 1 else 0

  /** The type system offers the breadth-first strategy for users that are blocked, and none else. */
  const TYPES: TypeSystem := TypeSystem((t, r, ut, q) => false, (t, r, ut) => t == DOC && r == BLOCKED && ut == USER,
                                        (t, r, ut, rw) => false, (t, r, ut, rw) => false)

  function TheWorld(): World {
    World(TheEnv(), RANK, AllCount({}, Tuples()), TYPES, false)
  }

  const CONFIG: Config := Config(scope => TheWorld(), 0, 25, (scope, user) => user == ANNE, false)

  function Views(): Goal {
    Goal(Doc(1), VIEWER, ANNE)
  }

  function IsBlocked(x: nat): Goal {
    Goal(Doc(x), BLOCKED, ANNE)
  }

  // ----- the world meets all assumptions

  lemma Closed()
    ensures Acyclic(TheEnv(), RANK) && ValidTuples(TheEnv()) && PathClosed(TheEnv())
  {
    var e := TheEnv();
    assert Restrictions(e, DOC, VIEWER) == [TypeRef(USER)] &&
        Restrictions(e, DOC, BLOCKED) == [TypeRef(USER), UsersetRef(DOC, BLOCKED)];
    forall ref, t, r | Defined(e, t, r) && Reaches(e, ref, t, r, RewriteOf(e, t, r)) ensures (ref, t, r) in e.paths {
      if r == VIEWER {
        assert Reaches(e, ref, t, r, This) || Reaches(e, ref, t, r, Computed(BLOCKED));
      }
    }
  }

  lemma IsGrounded()
    ensures Grounded(TheEnv(), RANK, AllCount({}, Tuples()))
  {
    Closed();
  }

  function TheSearch(): Search {
    Search(ByUserset, DOC, BLOCKED)
  }

  lemma BlockedIsSearchable()
    ensures Acyclic(TheEnv(), RANK) && Searchable(TheEnv(), RANK, ANNE, TheSearch()) && NoReturn(TheEnv(), TheSearch())
  {
    var e, s := TheEnv(), TheSearch();
    Closed();
    assert Restrictions(e, DOC, BLOCKED) == [TypeRef(USER), UsersetRef(DOC, BLOCKED)];
    assert OthersDead(e, RefOf(ANNE), s);
    assert Strayed(e, s, iset{});
  }

  lemma BlockedIsReadable()
    ensures Acyclic(TheEnv(), RANK) && ReadableSearch(TheEnv(), RANK, AllCount({}, Tuples()), ANNE, TheSearch())
  {
    Closed();
    UnrepeatedIsReadable(TheEnv(), AllCount({}, Tuples()), ANNE);
    ReadableStoreIsEnough(TheEnv(), RANK, AllCount({}, Tuples()), ANNE, TheSearch());
  }

  lemma BlockedIsSearched()
    ensures CanSearch(TheWorld(), ANNE, TheSearch())
  {
    IsGrounded();
    BlockedIsSearchable();
    BlockedIsReadable();
  }

  lemma AnneIsReliedOn()
    ensures WellFormed(TheWorld(), ANNE)
  {
    Closed();
    BlockedIsSearched();
    assert Assumptions(TheWorld(), ANNE);
  }

  lemma GoalsAreDecided()
    ensures IsTrue(TheEnv(), Views()) && IsFalse(TheEnv(), IsBlocked(1))
  {
    var e, u := TheEnv(), iset{IsBlocked(1), IsBlocked(2)};
    assert Restrictions(e, DOC, BLOCKED) == [TypeRef(USER), UsersetRef(DOC, BLOCKED)];
    BlockedBy(1);
    BlockedBy(2);
    assert Unsupported(e, 0, u, IsBlocked(1)) && Unsupported(e, 0, u, IsBlocked(2));
    assert Unfounded(e, 0, u);
    assert Fails(e, 1, IsBlocked(1));
    assert HoldsRw(e, 1, Views(), This);
    assert FailsRw(e, 1, iset{}, Views(), Computed(BLOCKED));
    assert HoldsRw(e, 1, Views(), Difference(This, Computed(BLOCKED)));
    assert Holds(e, 2, Views());
  }

  lemma BlockedBy(x: nat)
    requires x == 1 || x == 2
    ensures AllUsersets(TheEnv(), IsBlocked(x)) == {IsBlocked(3 - x)}
  {
    var e := TheEnv();
    assert Restrictions(e, DOC, BLOCKED) == [TypeRef(USER), UsersetRef(DOC, BLOCKED)];
    var t := Tuple(Doc(x), BLOCKED, Userset(Doc(3 - x), BLOCKED));
    assert t in e.tuples && RefOf(t.subject) in Restrictions(e, DOC, BLOCKED);
  }

  // ----- the run

  const CUT_OFF: Outcome := Answer(false, true)

  /** If the question about the other document is cut off, so is the read of the usersets. */
  lemma UsersetsAreCutOff(s: Shared, inner: Request, x: nat)
    requires (x == 1 || x == 2) && inner.goal == IsBlocked(x)
    requires GetsTo(CONFIG, true, s, Local(inner.Child(IsBlocked(3 - x))), Whole(CUT_OFF))
    ensures GetsTo(CONFIG, true, s, Handling(inner, UsersetTuples), Whole(CUT_OFF))
  {
    BlockedBy(x);
    var usersets := Handling(inner, UsersetTuples);
    var dispatch := Start(OfDispatches(true), inner, SubProblems([IsBlocked(3 - x)]));
    assert DispatchesAll(inner, AllUsersets(TheEnv(), inner.goal), dispatch);
    OneStep(CONFIG, true, s, usersets, dispatch, []);
    DispatchIsCutOff(s, inner, IsBlocked(3 - x));
    Then(CONFIG, true, s, usersets, dispatch, Whole(CUT_OFF));
  }

  lemma DispatchIsCutOff(s: Shared, inner: Request, g: Goal)
    requires GetsTo(CONFIG, true, s, Local(inner.Child(g)), Whole(CUT_OFF))
    ensures GetsTo(CONFIG, true, s, Start(OfDispatches(true), inner, SubProblems([g])), Whole(CUT_OFF))
  {
    var dispatch := Start(OfDispatches(true), inner, SubProblems([g]));
    assert dispatch.kids[0] == Handling(inner, SubProblem(g));
    OneStep(CONFIG, true, s, dispatch.kids[0], Local(inner.Child(g)), []);
    Then(CONFIG, true, s, dispatch.kids[0], Local(inner.Child(g)), Whole(CUT_OFF));
    assert [CUT_OFF][0].Cyclic();
    OneKid(CONFIG, true, s, dispatch, CUT_OFF, CUT_OFF);
  }

  /** And so is the question about this one. */
  lemma BlockedIsCutOff(s: Shared, req: Request, x: nat)
    requires (x == 1 || x == 2) && req.goal == IsBlocked(x) && req.goal !in req.visited && req.depth != CONFIG.limit
    requires GetsTo(CONFIG, true, s, Local(Inner(req).Child(IsBlocked(3 - x))), Whole(CUT_OFF))
    ensures GetsTo(CONFIG, true, s, Local(req), Whole(CUT_OFF))
  {
    UsersetsAreCutOff(s, Inner(req), x);
    DirectIsCutOff(s, Inner(req), x);
    OneStep(CONFIG, true, s, Local(req), Handling(Inner(req), Operand(This)), []);
    Then(CONFIG, true, s, Local(req), Handling(Inner(req), Operand(This)), Whole(CUT_OFF));
  }

  lemma DirectIsCutOff(s: Shared, inner: Request, x: nat)
    requires (x == 1 || x == 2) && inner.goal == IsBlocked(x)
    requires GetsTo(CONFIG, true, s, Handling(inner, UsersetTuples), Whole(CUT_OFF))
    ensures GetsTo(CONFIG, true, s, Handling(inner, Operand(This)), Whole(CUT_OFF))
  {
    BlockedHandlers(inner.goal);
    var direct := Start(OfUnion, inner, DirectHandlers(TheEnv(), inner.goal));
    assert direct.kids == [Handling(inner, DirectTuple), Handling(inner, UsersetTuples)];
    OneStep(CONFIG, true, s, Handling(inner, Operand(This)), direct, []);
    NoDirectTuple(s, inner, x);
    assert [DENIED, CUT_OFF][1].Cyclic();
    TwoKids(CONFIG, true, s, direct, DENIED, CUT_OFF, CUT_OFF);
    Then(CONFIG, true, s, Handling(inner, Operand(This)), direct, Whole(CUT_OFF));
  }

  lemma NoDirectTuple(s: Shared, inner: Request, x: nat)
    requires inner.goal == IsBlocked(x)
    ensures GetsTo(CONFIG, true, s, Handling(inner, DirectTuple), Whole(DENIED))
  {
    OneStep(CONFIG, true, s, Handling(inner, DirectTuple), Whole(DENIED), []);
  }

  lemma BlockedHandlers(g: Goal)
    requires g == IsBlocked(1) || g == IsBlocked(2)
    ensures DirectHandlers(TheEnv(), g) == [DirectTuple, UsersetTuples]
  {
    var refs := Restrictions(TheEnv(), DOC, BLOCKED);
    assert refs == [TypeRef(USER), UsersetRef(DOC, BLOCKED)];
    assert UsersetRef(DOC, BLOCKED) in UsersetRefs(refs);
  }

  lemma ViewerHandlers()
    ensures DirectHandlers(TheEnv(), Views()) == [DirectTuple]
  {
    var refs := Restrictions(TheEnv(), DOC, VIEWER);
    assert refs == [TypeRef(USER)];
    if UsersetRefs(refs) != [] {
      assert UsersetRefs(refs)[0] in UsersetRefs(refs);
      assert UsersetRefs(refs)[0] in refs;
    }
  }

  /** Anne is a viewer, as far as the base goes. */
  lemma BaseIsAllowed(s: Shared, inner: Request)
    requires inner.goal == Views()
    ensures GetsTo(CONFIG, true, s, Handling(inner, Operand(This)), Whole(Answer(true, false)))
  {
    ViewerHandlers();
    var direct := Start(OfUnion, inner, DirectHandlers(TheEnv(), inner.goal));
    OneStep(CONFIG, true, s, Handling(inner, Operand(This)), direct, []);
    assert direct.kids == [Handling(inner, DirectTuple)];
    OneStep(CONFIG, true, s, direct.kids[0], Whole(Answer(true, false)), []);
    assert [Answer(true, false)][0].Allowed();
    OneKid(CONFIG, true, s, direct, Answer(true, false), Answer(true, false));
    Then(CONFIG, true, s, Handling(inner, Operand(This)), direct, Whole(Answer(true, false)));
  }

  /** The other side comes back to the first document and is cut off there. */
  lemma SubtractIsCutOff(s: Shared, inner: Request)
    requires inner.goal == Views() && inner.visited == {Views()} && inner.depth == 0
    ensures GetsTo(CONFIG, true, s, Handling(inner, Operand(Computed(BLOCKED))), Whole(CUT_OFF))
  {
    var first := inner.(goal := IsBlocked(1));
    var second := Inner(first).Child(IsBlocked(2));
    var third := Inner(second).Child(IsBlocked(1));
    OneStep(CONFIG, true, s, Local(third), Whole(CUT_OFF), []);
    BlockedIsCutOff(s, second, 2);
    BlockedIsCutOff(s, first, 1);
    OneStep(CONFIG, true, s, Handling(inner, Operand(Computed(BLOCKED))), Local(first), []);
    Then(CONFIG, true, s, Handling(inner, Operand(Computed(BLOCKED))), Local(first), Whole(CUT_OFF));
  }

  lemma ViewsIsDenied(s: Shared, req: Request)
    requires req.goal == Views() && req.visited == {} && req.depth == 0
    ensures GetsTo(CONFIG, true, s, Local(req), Whole(CUT_OFF))
  {
    var inner, rw := Inner(req), Difference(This, Computed(BLOCKED));
    var entered := Handling(inner, Operand(rw));
    OneStep(CONFIG, true, s, Local(req), entered, []);
    var exclusion := Start(OfExclusion, inner, [Operand(This), Operand(Computed(BLOCKED))]);
    OneStep(CONFIG, true, s, entered, exclusion, []);
    assert exclusion.kids == [Handling(inner, Operand(This)), Handling(inner, Operand(Computed(BLOCKED)))];
    BaseIsAllowed(s, inner);
    SubtractIsCutOff(s, inner);
    TwoKids(CONFIG, true, s, exclusion, Answer(true, false), CUT_OFF, CUT_OFF);
    Then(CONFIG, true, s, Local(req), entered, exclusion);
    Then(CONFIG, true, s, Local(req), exclusion, Whole(CUT_OFF));
  }

  /** The answers about anne can be relied on, and yet there is a reachable state in which a request of hers
      on its own, for a goal that is true, has been denied under the flag of a cycle. */
  lemma ExclusionDeniesATrueGoal() returns (s: State)
    ensures Sane(CONFIG) && Reachable(CONFIG, s) && |s.roots| == 1
    ensures var root := s.roots[0];
            && CONFIG.relied(root.req.scope, root.req.goal.user)
            && root.req.visited == {} && root.live && root.job == Whole(Answer(false, true))
            && IsTrue(CONFIG.worlds(root.req.scope).env, root.req.goal)
  {
    AnneIsReliedOn();
    GoalsAreDecided();
    var req := Request(Scope("", "", {}, ""), Views(), {}, 0, true, 0);
    s := StartIsReachable(CONFIG);
    s := ArrivesNext(CONFIG, s, req, Local(req));
    ViewsIsDenied(s.shared, req);
    s := RootGetsTo(CONFIG, s, 0, Whole(CUT_OFF));
  }
}
