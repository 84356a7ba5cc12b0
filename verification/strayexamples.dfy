/** Two models that the type system accepts for the breadth-first strategy, each with a store on which the
    strategy allows a goal that is false. */
module StrayExamples {
  import opened Model
  import opened Semantics
  import opened Reducers
  import opened LeafReads
  import opened FastPath
  import opened FastPathMeaning
  import opened Weight2
  import opened Recursive
  import opened RecursiveMeaning
  import opened Strays
  import PathGuard

  const ANNE: Subject := User(Object(TypeName("user"), 1))
  const ANNES: Ref := TypeRef(TypeName("user"))
  const STAFF: Ref := TypeRef(TypeName("employee"))

  const GROUP: TypeName := TypeName("group")
  const MEMBER: RelationName := RelationName("member")
  const OWNER: RelationName := RelationName("owner")
  const MEMBERS: Ref := UsersetRef(TypeName("group"), RelationName("member"))
  const OWNERS: Ref := UsersetRef(TypeName("group"), RelationName("owner"))

  const FOLDER: TypeName := TypeName("folder")
  const ORG: TypeName := TypeName("org")
  const PARENT: RelationName := RelationName("parent")
  const VIEWER: RelationName := RelationName("viewer")

  const RANK: Rank := (t, r) => 0

  // ----- usersets: members of a group are users, members and owners of groups; owners are employees

  function GroupSearch(): Search {
    Search(ByUserset, GROUP, MEMBER)
  }

  function GroupModel(tuples: set<Tuple>): Env {
    Env(map[(GROUP, MEMBER) := RelationDef(This, [ANNES, MEMBERS, OWNERS]),
            (GROUP, OWNER) := RelationDef(This, [STAFF])],
        tuples,
        {(ANNES, GROUP, MEMBER), (MEMBERS, GROUP, MEMBER), (OWNERS, GROUP, MEMBER), (STAFF, GROUP, MEMBER),
            (STAFF, GROUP, OWNER)})
  }

  /** The owners of group 2 are members of group 1, and anne is a member of group 2. */
  function GroupTuples(): set<Tuple> {
    {Tuple(Object(GROUP, 1), MEMBER, Userset(Object(GROUP, 2), OWNER)), Tuple(Object(GROUP, 2), MEMBER, ANNE)}
  }

  /** The tuple at the end of the way. */
  function GroupEnds(): set<Tuple> {
    {Tuple(Object(GROUP, 2), MEMBER, ANNE)}
  }

  lemma GroupIsGrounded()
    ensures Grounded(GroupModel(GroupTuples()), RANK, AllCount({}, GroupTuples()))
  {
    var e := GroupModel(GroupTuples());
    assert Restrictions(e, GROUP, MEMBER) == [ANNES, MEMBERS, OWNERS] && Restrictions(e, GROUP, OWNER) == [STAFF];
    forall ref, t, r | Defined(e, t, r) && Reaches(e, ref, t, r, RewriteOf(e, t, r)) ensures (ref, t, r) in e.paths {
      assert r == OWNER || r == MEMBER;
    }
  }

  lemma GroupIsReadable()
    ensures Acyclic(GroupModel(GroupTuples()), RANK)
    ensures ReadableSearch(GroupModel(GroupTuples()), RANK, AllCount({}, GroupTuples()), ANNE, GroupSearch())
  {
    GroupIsGrounded();
    UnrepeatedIsReadable(GroupModel(GroupTuples()), AllCount({}, GroupTuples()), ANNE);
    ReadableStoreIsEnough(GroupModel(GroupTuples()), RANK, AllCount({}, GroupTuples()), ANNE, GroupSearch());
  }

  lemma GroupIsSearchable()
    ensures var e := GroupModel(GroupTuples());
            Acyclic(e, RANK) && Searchable(e, RANK, ANNE, GroupSearch())
  {
    var e, s := GroupModel(GroupTuples()), GroupSearch();
    GroupIsGrounded();
    assert Restrictions(e, GROUP, MEMBER) == [ANNES, MEMBERS, OWNERS];
    assert OthersDead(e, ANNES, s);
  }

  lemma GroupEndIsListed()
    ensures IsListedOn(GroupModel(GroupTuples()), RANK, ANNE, GroupSearch(), GroupEnds(), 2)
  {
    var e := GroupModel(GroupEnds());
    assert Restrictions(e, GROUP, MEMBER) == [ANNES, MEMBERS, OWNERS];
    assert GroupModel(GroupTuples()).(tuples := GroupEnds()) == e;
  }

  lemma GroupWayBack()
    ensures var e, s := GroupModel(GroupTuples()), GroupSearch();
            WayBack(e, s, [OWNERS]) && e.tuples == Detour(s, [OWNERS], GroupEnds()) && !NoReturn(e, s)
  {
    var e, s, qs := GroupModel(GroupTuples()), GroupSearch(), [OWNERS];
    assert Restrictions(e, GROUP, MEMBER) == [ANNES, MEMBERS, OWNERS];
    assert OWNERS in Restrictions(e, GROUP, MEMBER) && OWNERS in Refs(e, s);
    assert WayBack(e, s, qs);
    NoReturnIffNoWayBack(e, s);
    assert Hop(s, qs, 0) == Tuple(Object(GROUP, 1), MEMBER, Userset(Object(GROUP, 2), OWNER));
    assert (set i | 0 <= i < |qs| :: Hop(s, qs, i)) == {Hop(s, qs, 0)};
  }

  lemma GroupIsOffered()
    ensures IsOffered(GroupModel(GroupTuples()), RANK, AllCount({}, GroupTuples()), GroupSearch(), ANNE)
  {
    GroupIsGrounded();
    GroupIsReadable();
    GroupIsSearchable();
  }

  lemma GroupIsDetour()
    ensures IsDetour(GroupModel(GroupTuples()), RANK, GroupSearch(), [OWNERS], GroupEnds(), ANNE)
    ensures !NoReturn(GroupModel(GroupTuples()), GroupSearch())
  {
    GroupWayBack();
    GroupEndIsListed();
  }

  /** The strategy makes anne a member of group 1, although she is none. */
  method OwnersAreTakenForMembers() returns (r: Outcome)
    ensures r == Answer(true, false)
    ensures IsFalse(GroupModel(GroupTuples()), Goal(Object(GROUP, 1), MEMBER, ANNE))
    ensures !NoReturn(GroupModel(GroupTuples()), GroupSearch())
  {
    GroupIsOffered();
    GroupIsDetour();
    GroupNames();
    AmpleSearch(GroupModel(GroupTuples()), 25, GroupSearch(), Object(GROUP, 1));
    r := RunAstray(GroupModel(GroupTuples()), RANK, AllCount({}, GroupTuples()), GroupSearch(), [OWNERS], GroupEnds(),
                   ANNE, 25);
  }

  lemma GroupNames()
    ensures |Named(GroupModel(GroupTuples()))| <= 20
  {
    FewAreNamed(GroupModel(GroupTuples()), {Object(GROUP, 2), ANNE.obj});
  }

  lemma FewAreNamed(e: Env, objs: set<Object>)
    requires Named(e) <= objs && |objs| <= 20
    ensures |Named(e)| <= 20
  {
    assert objs == Named(e) + (objs - Named(e));
  }

  // ----- parents: those of a folder are folders and organisations, that of an organisation is a folder

  function FolderSearch(): Search {
    Search(ByParent(PARENT), FOLDER, VIEWER)
  }

  function FolderModel(tuples: set<Tuple>): Env {
    Env(map[(FOLDER, PARENT) := RelationDef(This, [TypeRef(FOLDER), TypeRef(ORG)]),
            (FOLDER, VIEWER) := RelationDef(Union([This, TupleToUserset(PARENT, VIEWER)]), [ANNES]),
            (ORG, PARENT) := RelationDef(This, [TypeRef(FOLDER)]),
            (ORG, VIEWER) := RelationDef(This, [STAFF])],
        tuples,
        {(TypeRef(FOLDER), FOLDER, PARENT), (TypeRef(ORG), FOLDER, PARENT), (TypeRef(FOLDER), ORG, PARENT),
         (ANNES, FOLDER, VIEWER), (STAFF, ORG, VIEWER), (STAFF, FOLDER, VIEWER)})
  }

  /** Folder 1 is in organisation 2, which has folder 3 as its parent; anne views folder 3. */
  function FolderTuples(): set<Tuple> {
    {Tuple(Object(FOLDER, 1), PARENT, User(Object(ORG, 2))), Tuple(Object(ORG, 2), PARENT, User(Object(FOLDER, 3))),
     Tuple(Object(FOLDER, 3), VIEWER, ANNE)}
  }

  function FolderWay(): seq<Ref> {
    [TypeRef(ORG), TypeRef(FOLDER)]
  }

  function FolderEnds(): set<Tuple> {
    {Tuple(Object(FOLDER, 3), VIEWER, ANNE)}
  }

  lemma FolderIsClosed()
    ensures PathClosed(FolderModel(FolderTuples())) && ValidTuples(FolderModel(FolderTuples()))
    ensures Acyclic(FolderModel(FolderTuples()), RANK)
  {
    var e := FolderModel(FolderTuples());
    var rw := Union([This, TupleToUserset(PARENT, VIEWER)]);
    assert Restrictions(e, FOLDER, PARENT) == [TypeRef(FOLDER), TypeRef(ORG)] &&
        Restrictions(e, ORG, PARENT) == [TypeRef(FOLDER)];
    assert Restrictions(e, FOLDER, VIEWER) == [ANNES] && Restrictions(e, ORG, VIEWER) == [STAFF];
    forall ref, t, r | Defined(e, t, r) && Reaches(e, ref, t, r, RewriteOf(e, t, r)) ensures (ref, t, r) in e.paths {
      if t == FOLDER && r == VIEWER {
        var i :| 0 <= i < 2 && Reaches(e, ref, t, r, rw.children[i]);
        assert Reaches(e, ref, t, r, if i == 0 then This else TupleToUserset(PARENT, VIEWER));
      }
    }
    forall t, r | Defined(e, t, r) ensures Compilable(e, RANK, t, RANK(t, r), RewriteOf(e, t, r)) {
      if t == FOLDER && r == VIEWER {
        assert Compilable(e, RANK, t, RANK(t, r), This) &&
            Compilable(e, RANK, t, RANK(t, r), TupleToUserset(PARENT, VIEWER));
      }
    }
  }

  lemma FolderIsReadable()
    ensures Acyclic(FolderModel(FolderTuples()), RANK)
    ensures ReadableSearch(FolderModel(FolderTuples()), RANK, AllCount({}, FolderTuples()), ANNE, FolderSearch())
  {
    FolderIsClosed();
    UnrepeatedIsReadable(FolderModel(FolderTuples()), AllCount({}, FolderTuples()), ANNE);
    ReadableStoreIsEnough(FolderModel(FolderTuples()), RANK, AllCount({}, FolderTuples()), ANNE, FolderSearch());
  }

  lemma FolderIsSearchable()
    ensures var e, s := FolderModel(FolderTuples()), FolderSearch();
            Acyclic(e, RANK) && Searchable(e, RANK, ANNE, s) && SelfRef(s) in Refs(e, s)
  {
    var e, s := FolderModel(FolderTuples()), FolderSearch();
    FolderIsClosed();
    var rw := RewriteOf(e, FOLDER, VIEWER);
    assert Refs(e, s) == [TypeRef(FOLDER), TypeRef(ORG)] && Restrictions(e, FOLDER, VIEWER) == [ANNES];
    assert OthersDead(e, ANNES, s);
    assert WeightOne(e, RANK, ANNES, FOLDER, VIEWER, This);
    assert UnionTree(e, RANK, ANNES, s, This) && UnionTree(e, RANK, ANNES, s, TupleToUserset(PARENT, VIEWER));
    assert rw.children[0] == This && rw.children[1] == TupleToUserset(PARENT, VIEWER);
    assert HasLeaf(LeafOf(s), rw.children[1]);
  }

  lemma FolderEndIsListed()
    ensures IsListedOn(FolderModel(FolderTuples()), RANK, ANNE, FolderSearch(), FolderEnds(), 3)
  {
    var e, rw := FolderModel(FolderEnds()), Union([This, TupleToUserset(PARENT, VIEWER)]);
    FolderIsClosed();
    PathGuard.AcyclicToo(FolderModel(FolderTuples()), e, RANK);
    assert Restrictions(e, FOLDER, VIEWER) == [ANNES];
    assert FolderModel(FolderTuples()).(tuples := FolderEnds()) == e;
    assert Denotes(e, RANK, ANNE, FOLDER, VIEWER, rw.children[0], 3);
  }

  lemma FolderWayBack()
    ensures var e, s := FolderModel(FolderTuples()), FolderSearch();
            WayBack(e, s, FolderWay()) && FolderTuples() == Detour(s, FolderWay(), FolderEnds()) && !NoReturn(e, s)
  {
    var e, s, qs := FolderModel(FolderTuples()), FolderSearch(), FolderWay();
    assert Restrictions(e, FOLDER, PARENT) == [TypeRef(FOLDER), TypeRef(ORG)] &&
        Restrictions(e, ORG, PARENT) == [TypeRef(FOLDER)];
    assert Follows(e, s, FOLDER, qs[0]) && Follows(e, s, ORG, qs[1]);
    assert Hop(s, qs, 0) == Tuple(Object(FOLDER, 1), PARENT, User(Object(ORG, 2)));
    assert Hop(s, qs, 1) == Tuple(Object(ORG, 2), PARENT, User(Object(FOLDER, 3)));
    assert (set i | 0 <= i < |qs| :: Hop(s, qs, i)) == {Hop(s, qs, 0), Hop(s, qs, 1)};
    assert WayBack(e, s, qs);
    NoReturnIffNoWayBack(e, s);
  }

  lemma FolderIsOffered()
    ensures IsOffered(FolderModel(FolderTuples()), RANK, AllCount({}, FolderTuples()), FolderSearch(), ANNE)
  {
    FolderIsClosed();
    FolderIsReadable();
    FolderIsSearchable();
  }

  lemma FolderIsDetour()
    ensures IsDetour(FolderModel(FolderTuples()), RANK, FolderSearch(), FolderWay(), FolderEnds(), ANNE)
    ensures !NoReturn(FolderModel(FolderTuples()), FolderSearch())
  {
    FolderWayBack();
    FolderEndIsListed();
  }

  /** The strategy lets anne view folder 1, although she does not. */
  method OrganisationsArePassedThrough() returns (r: Outcome)
    ensures r == Answer(true, false)
    ensures IsFalse(FolderModel(FolderTuples()), Goal(Object(FOLDER, 1), VIEWER, ANNE))
    ensures !NoReturn(FolderModel(FolderTuples()), FolderSearch())
  {
    FolderIsOffered();
    FolderIsDetour();
    FolderNames();
    AmpleSearch(FolderModel(FolderTuples()), 25, FolderSearch(), Object(FOLDER, 1));
    r := RunAstray(FolderModel(FolderTuples()), RANK, AllCount({}, FolderTuples()), FolderSearch(), FolderWay(),
                   FolderEnds(), ANNE, 25);
  }

  lemma FolderNames()
    ensures |Named(FolderModel(FolderTuples()))| <= 20
  {
    FewAreNamed(FolderModel(FolderTuples()), {Object(ORG, 2), Object(FOLDER, 3), ANNE.obj});
  }
}
