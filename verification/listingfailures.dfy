/** Stores on which the merged read of a relation loses an object, so that weight two denies a true goal.
    Everything else that the fast path relies on is given. */
module ListingFailures {
  import opened Options
  import opened Model
  import opened Semantics
  import opened Reducers
  import opened TupleMerge
  import opened Iterators
  import opened LeafReads
  import opened Bags
  import opened FastPath
  import opened FastPathMeaning
  import opened Weight2
  import opened Handlers

  const USER: TypeName := TypeName("user")
  const GROUP: TypeName := TypeName("group")
  const DOC: TypeName := TypeName("doc")
  const MEMBER: RelationName := RelationName("member")
  const VIEWER: RelationName := RelationName("viewer")
  const ANNE: Subject := User(Object(TypeName("user"), 1))
  const MEMBERS: Ref := UsersetRef(TypeName("group"), RelationName("member"))

  /** Users are members of groups, directly or all of them; members of groups view documents. */
  function Relations(): map<(TypeName, RelationName), RelationDef> {
    map[(GROUP, MEMBER) := RelationDef(This, [TypeRef(USER), WildcardRef(USER)]),
        (DOC, VIEWER) := RelationDef(This, [MEMBERS])]
  }

  function Paths(): set<(Ref, TypeName, RelationName)> {
    {(TypeRef(USER), GROUP, MEMBER), (WildcardRef(USER), GROUP, MEMBER),
     (TypeRef(USER), DOC, VIEWER), (WildcardRef(USER), DOC, VIEWER), (MEMBERS, DOC, VIEWER)}
  }

  function Member(x: nat, s: Subject): Tuple {
    Tuple(Object(GROUP, x), MEMBER, s)
  }

  function Viewers(): Tuple {
    Tuple(Object(DOC, 1), VIEWER, Userset(Object(GROUP, 2), MEMBER))
  }

  /** Group 1 has both anne and everyone, group 2 has anne. */
  function Doubled(): Store {
    AllCount({}, {Member(1, ANNE), Member(1, Wildcard(USER)), Member(2, ANNE), Viewers()})
  }

  /** The request repeats a tuple of the datastore. */
  function Repeated(): Store {
    AllCount({Member(1, ANNE)}, {Member(1, ANNE), Member(2, ANNE), Viewers()})
  }

  /** As the first, but everyone is in group 1 only under a condition that is not met. */
  function Rejected(): Store {
    Doubled().(ignored := {Member(1, Wildcard(USER))})
  }

  predicate IsExample(store: Store) {
    store == Doubled() || store == Repeated() || store == Rejected()
  }

  function EnvOf(store: Store): Env {
    Env(Relations(), (store.contextual - store.ignoredContextual) + (store.stored - store.ignored), Paths())
  }

  const RANK: Rank := (t, r) => 0

  /** Does anne view document 1? */
  function Question(): Goal {
    Goal(Object(DOC, 1), VIEWER, ANNE)
  }

  /** All that the fast path relies on but the reads: the model, the tuples, the paths and the weights. */
  ghost predicate GroundedBut(e: Env, store: Store) {
    && Acyclic(e, RANK) && ValidTuples(e) && PathClosed(e) && HoldsTuplesOf(store, e)
    && Listable(e, RANK, ANNE, GROUP, MEMBER)
  }

  lemma StoresAreGrounded(store: Store)
    requires IsExample(store)
    ensures GroundedBut(EnvOf(store), store)
  {
    var e := EnvOf(store);
    forall ref, t, r | Defined(e, t, r) && Reaches(e, ref, t, r, RewriteOf(e, t, r)) ensures (ref, t, r) in e.paths {
      if r == VIEWER {
        assert Restrictions(e, t, r) == [MEMBERS];
      } else {
        assert Restrictions(e, t, r) == [TypeRef(USER), WildcardRef(USER)];
      }
    }
  }

  /** Anne is a member of group 2, so the answer to the question is yes. */
  lemma QuestionIsTrue(store: Store)
    requires IsExample(store)
    ensures IsTrue(EnvOf(store), Question())
  {
    var e, k := EnvOf(store), Goal(Object(GROUP, 2), MEMBER, ANNE);
    assert Member(2, ANNE) in e.tuples && Viewers() in e.tuples;
    assert HoldsRw(e, 0, k, This);
    assert Holds(e, 1, k);
    assert RefOf(Viewers().subject) in Restrictions(e, DOC, VIEWER);
    assert k in AllUsersets(e, Question());
    assert HoldsRw(e, 1, Question(), This);
    assert Holds(e, 2, Question());
  }

  lemma {:induction false} RowsFromLeast(ts: set<Tuple>, from: nat, x: nat, ids: set<nat>)
    requires x in ids && forall y :: y in ids ==> x <= y
    ensures RowsOf(ts, ANNE, GROUP, MEMBER, true, from, ids) ==
            RowsOfObject(ts, ANNE, GROUP, MEMBER, true, from, x) +
                RowsOf(ts, ANNE, GROUP, MEMBER, true, from, ids - {x})
  {
    assert Least(ids) == x;
  }

  lemma RowsOfTwo(ts: set<Tuple>, from: nat)
    ensures RowsOf(ts, ANNE, GROUP, MEMBER, true, from, {1, 2}) ==
            RowsOfObject(ts, ANNE, GROUP, MEMBER, true, from, 1) + RowsOfObject(ts, ANNE, GROUP, MEMBER, true, from, 2)
    ensures RowsOf(ts, ANNE, GROUP, MEMBER, true, from, {1}) == RowsOfObject(ts, ANNE, GROUP, MEMBER, true, from, 1)
  {
    RowsFromLeast(ts, from, 1, {1, 2});
    assert {1, 2} - {1} == {2} && {2} - {2} == {} && {1} - {1} == {};
    RowsFromLeast(ts, from, 2, {2});
    RowsFromLeast(ts, from, 1, {1});
  }

  lemma IdsOf(store: Store)
    requires IsExample(store)
    ensures MatchingIds(store.stored, ANNE, GROUP, MEMBER, true) == {1, 2}
    ensures MatchingIds(store.contextual, ANNE, GROUP, MEMBER, true) == if store == Repeated() then {1} else {}
  {
    assert Selects(Member(1, ANNE), ANNE, GROUP, MEMBER, true) && Selects(Member(2, ANNE), ANNE, GROUP, MEMBER, true);
    assert Member(1, ANNE) in store.stored && Member(2, ANNE) in store.stored;
    assert store == Repeated() ==> Member(1, ANNE) in store.contextual;
  }

  lemma RowsOfGroup(ts: set<Tuple>, from: nat, x: nat)
    ensures RowsOfObject(ts, ANNE, GROUP, MEMBER, true, from, x) ==
            (if Member(x, ANNE) in ts then [Item(x, from)] else []) +
                (if Member(x, Wildcard(USER)) in ts then [Item(x, from + 1)] else [])
  {}

  lemma StoredRows(store: Store)
    requires IsExample(store)
    ensures SortedRows(store.stored, ANNE, GROUP, MEMBER, true, STORED_USER) ==
            if store == Repeated() then [Item(1, 2), Item(2, 2)] else [Item(1, 2), Item(1, 3), Item(2, 2)]
  {
    var ts, from := store.stored, STORED_USER;
    IdsOf(store);
    RowsOfTwo(ts, from);
    RowsOfGroup(ts, from, 1);
    RowsOfGroup(ts, from, 2);
    assert [Item(1, 2), Item(1, 3)] + [Item(2, 2)] == [Item(1, 2), Item(1, 3), Item(2, 2)];
    assert [Item(1, 2)] + [Item(2, 2)] == [Item(1, 2), Item(2, 2)];
  }

  lemma ContextualRows(store: Store)
    requires IsExample(store)
    ensures SortedRows(store.contextual, ANNE, GROUP, MEMBER, true, CONTEXTUAL_USER) ==
            if store == Repeated() then [Item(1, 0)] else []
  {
    var ts, from := store.contextual, CONTEXTUAL_USER;
    IdsOf(store);
    if store == Repeated() {
      RowsOfTwo(ts, from);
      RowsOfGroup(ts, from, 1);
    }
  }

  /** The row of everyone, if it is rejected. */
  function DroppedRows(store: Store): set<Item> {
    if store == Rejected() then {Item(1, STORED_WILDCARD)} else {}
  }

  lemma PublicRows(store: Store)
    requires IsExample(store)
    ensures LeafRows(EnvOf(store), store, ANNE)(GROUP, MEMBER) ==
            Read([SortedRows(store.contextual, ANNE, GROUP, MEMBER, true, CONTEXTUAL_USER),
                  SortedRows(store.stored, ANNE, GROUP, MEMBER, true, STORED_USER)], DroppedRows(store))
  {
    assert IsPublic(EnvOf(store), ANNE, GROUP, MEMBER);
    StoredRows(store);
    ContextualRows(store);
  }

  lemma InputsAre(store: Store)
    requires IsExample(store)
    ensures var read := LeafRows(EnvOf(store), store, ANNE)(GROUP, MEMBER);
            && read.dropped == DroppedRows(store)
            && AsInputs(read.rows) ==
               if store == Repeated() then [Input([Item(1, 0)]), Input([Item(1, 2), Item(2, 2)])]
               else [Input([]), Input([Item(1, 2), Item(1, 3), Item(2, 2)])]
  {
    PublicRows(store);
    StoredRows(store);
    ContextualRows(store);
  }

  /** On these stores the read yields group 1 and ends without failure. */
  lemma GroupTwoIsLost(store: Store)
    requires IsExample(store)
    ensures var read := LeafRows(EnvOf(store), store, ANNE)(GROUP, MEMBER);
            LeafList(read) == [1] && IsUnbroken(read) && !IsLegible(read)
  {
    InputsAre(store);
    OnlyOneIsYielded(LeafRows(EnvOf(store), store, ANNE)(GROUP, MEMBER), store == Repeated());
  }

  lemma OnlyOneIsYielded(read: Read, repeated: bool)
    requires AsInputs(read.rows) == if repeated then [Input([Item(1, 0)]), Input([Item(1, 2), Item(2, 2)])]
                                    else [Input([]), Input([Item(1, 2), Item(1, 3), Item(2, 2)])]
    requires Item(1, 0) !in read.dropped && Item(1, 2) !in read.dropped
    ensures LeafList(read) == [1] && IsUnbroken(read) && !IsLegible(read)
  {
    if repeated {
      SharedKeyLosesTheNext(0, 2, 2);
    } else {
      RepeatedKeyEndsTheRun(2, 3, 2);
    }
    KeptFirst(FilterOf(read.dropped), LeafRun(read).items);
    assert LeafList(read) == [1];
  }

  /** No read fails, and the strategy of weight two denies the question, without the flag of a cycle. */
  method ATrueGoalIsDenied(store: Store) returns (r: Outcome)
    requires IsExample(store)
    ensures r == DENIED && IsTrue(EnvOf(store), Question()) && GroundedBut(EnvOf(store), store)
  {
    var e := EnvOf(store);
    StoresAreGrounded(store);
    QuestionIsTrue(store);
    LeafRowsAreSorted(e, store, ANNE);
    ReadIsReliable(store);
    r := IntersectUsersets(e, RANK, LeafRows(e, store, ANNE), Question(), MEMBERS, false);
    NoneIsListed(store);
  }

  /** The strategy makes one read only, on its own, and it does not fail. */
  lemma ReadIsReliable(store: Store)
    requires IsExample(store)
    ensures Acyclic(EnvOf(store), RANK)
    ensures var e, rows := EnvOf(store), LeafRows(EnvOf(store), store, ANNE);
            && Steady(e, RANK, rows, false, GROUP, MEMBER, RewriteOf(e, GROUP, MEMBER))
            && Reliable(e, RANK, rows, false, GROUP, MEMBER, RewriteOf(e, GROUP, MEMBER))
  {
    StoresAreGrounded(store);
    GroupTwoIsLost(store);
  }

  lemma NoneIsListed(store: Store)
    requires IsExample(store)
    ensures Acyclic(EnvOf(store), RANK)
    ensures forall k :: k in UsersetGoals(EnvOf(store), Question(), [MEMBERS]) ==>
              ListedFor(EnvOf(store), RANK, LeafRows(EnvOf(store), store, ANNE), GROUP, MEMBER)[k.obj.id] == 0
  {
    StoresAreGrounded(store);
    OneIsListed(store);
    forall k | k in UsersetGoals(EnvOf(store), Question(), [MEMBERS])
      ensures ListedFor(EnvOf(store), RANK, LeafRows(EnvOf(store), store, ANNE), GROUP, MEMBER)[k.obj.id] == 0
    {
      AsksForTwo(store, k);
    }
  }

  lemma AsksForTwo(store: Store, k: Goal)
    requires IsExample(store) && k in UsersetGoals(EnvOf(store), Question(), [MEMBERS])
    ensures k.obj == Object(GROUP, 2)
  {}

  lemma OneIsListed(store: Store)
    requires IsExample(store) && Acyclic(EnvOf(store), RANK)
    ensures ListedFor(EnvOf(store), RANK, LeafRows(EnvOf(store), store, ANNE), GROUP, MEMBER) == multiset{1}
  {
    GroupTwoIsLost(store);
    assert multiset([1]) == multiset{1};
  }

  // ----- what the failure means for the checker

  /** Weight two is offered for members of groups as viewers, or nothing is. */
  function Offering(offered: bool): TypeSystem {
    TypeSystem((t, r, ut, q) => offered && t == DOC && r == VIEWER && ut == USER && q == MEMBERS,
               (t, r, ut) => false, (t, r, ut, rw) => false, (t, r, ut, rw) => false)
  }

  /** On these stores all that the checker relies on for anne is met if and only if the strategy is not
      offered: the reference strategy does not make that read. */
  lemma ReliedOnIffNotOffered(store: Store, offered: bool)
    requires IsExample(store)
    ensures WellFormed(World(EnvOf(store), RANK, store, Offering(offered), false), ANNE) <==> !offered
  {
    var w := World(EnvOf(store), RANK, store, Offering(offered), false);
    StoresAreGrounded(store);
    if offered {
      CannotList(w);
      assert w.types.usersetUseWeight2(DOC, VIEWER, UserType(ANNE), MEMBERS);
      assert Unfold(w, ANNE);
    } else {
      assert Assumptions(w, ANNE);
    }
  }

  lemma CannotList(w: World)
    requires IsExample(w.store) && w.env == EnvOf(w.store) && w.rank == RANK
    ensures !CanList(w, ANNE, MEMBERS)
  {
    var e := w.env;
    StoresAreGrounded(w.store);
    GroupTwoIsLost(w.store);
    assert Reads(e, RANK, GROUP, MEMBER, RewriteOf(e, GROUP, MEMBER), MEMBER);
  }
}
