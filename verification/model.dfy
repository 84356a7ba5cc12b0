/** The authorization model and the tuple store that every evaluator below reads. */
module Model {

  datatype TypeName = TypeName(name: string)

  datatype RelationName = RelationName(name: string)

  /** An object `type:id`.  The id is the rank of its text in byte order, so comparing ids of
      one type compares the source's object strings; rank 0 is the empty string. */
  datatype Object = Object(typ: TypeName, id: nat)

  /** The user side of a tuple or of a request: `user:anne`, `user:*` or `group:eng#member`. */
  datatype Subject =
    | User(obj: Object)
    | Wildcard(typ: TypeName)
    | Userset(obj: Object, relation: RelationName)

  datatype Tuple = Tuple(obj: Object, relation: RelationName, subject: Subject)

  /** A type restriction, and also the source node of a path query. */
  datatype Ref =
    | TypeRef(typ: TypeName)
    | WildcardRef(typ: TypeName)
    | UsersetRef(typ: TypeName, relation: RelationName)

  datatype Rewrite =
    | This
    | Computed(relation: RelationName)
    | TupleToUserset(tupleset: RelationName, computed: RelationName)
    | Union(children: seq<Rewrite>)
    | Intersection(children: seq<Rewrite>)
    | Difference(base: Rewrite, subtract: Rewrite)

  datatype RelationDef = RelationDef(rewrite: Rewrite, restrictions: seq<Ref>)

  /** `paths` holds the queries that the type system's PathExists answers with true. */
  datatype Env = Env(
    relations: map<(TypeName, RelationName), RelationDef>,
    tuples: set<Tuple>,
    paths: set<(Ref, TypeName, RelationName)>)

  /** A tuple to be decided: does `user` have `relation` on `object`? */
  datatype Goal = Goal(obj: Object, relation: RelationName, user: Subject)

  function RefOf(s: Subject): Ref {
    match s
    case User(o) => TypeRef(o.typ)
    case Wildcard(t) => WildcardRef(t)
    case Userset(o, r) => UsersetRef(o.typ, r)
  }

  predicate Defined(e: Env, t: TypeName, r: RelationName) {
    (t, r) in e.relations
  }

  function RewriteOf(e: Env, t: TypeName, r: RelationName): Rewrite
    requires Defined(e, t, r)
  {
    e.relations[(t, r)].rewrite
  }

  predicate HasPath(e: Env, g: Goal) {
    (RefOf(g.user), g.obj.typ, g.relation) in e.paths
  }

  predicate SelfDefining(g: Goal) {
    g.user == Userset(g.obj, g.relation)
  }

  /** Every stored tuple passes the read-side validation: its subject matches a type restriction,
      and a userset subject names a defined relation. */
  ghost predicate ValidTuples(e: Env) {
    forall t :: t in e.tuples ==>
      && Defined(e, t.obj.typ, t.relation)
      && RefOf(t.subject) in e.relations[(t.obj.typ, t.relation)].restrictions
      && (t.subject.Userset? ==> Defined(e, t.subject.obj.typ, t.subject.relation))
  }

  /** A tuple grants the goal by itself, either naming the user or a public wildcard of its type. */
  predicate Direct(e: Env, g: Goal) {
    || Tuple(g.obj, g.relation, g.user) in e.tuples
    || Public(e, g)
  }

  predicate Public(e: Env, g: Goal) {
    g.user.User? && Tuple(g.obj, g.relation, Wildcard(g.user.obj.typ)) in e.tuples
  }

  /** The sub-goals behind the userset tuples of `g` whose subject matches one of `refs`. */
  function UsersetGoals(e: Env, g: Goal, refs: seq<Ref>): set<Goal> {
    set t | t in e.tuples && t.obj == g.obj && t.relation == g.relation && t.subject.Userset? &&
            RefOf(t.subject) in refs ::
      Goal(t.subject.obj, t.subject.relation, g.user)
  }

  function Restrictions(e: Env, t: TypeName, r: RelationName): seq<Ref> {
    if Defined(e, t, r) then e.relations[(t, r)].restrictions else []
  }

  /** The restrictions of the form `type#relation`, in order. */
  function UsersetRefs(refs: seq<Ref>): (r: seq<Ref>)
    ensures forall x :: x in r <==> x in refs && x.UsersetRef?
    ensures |r| <= |refs|
  {
    if refs == [] then []
    else if refs[0].UsersetRef? then [refs[0]] + UsersetRefs(refs[1..])
    else UsersetRefs(refs[1..])
  }

  /** The sub-goals behind the tupleset tuples of `g`; parents whose type lacks the computed
      relation are skipped. */
  function TtuGoals(e: Env, g: Goal, tupleset: RelationName, computed: RelationName): set<Goal> {
    set t | t in e.tuples && t.obj == g.obj && t.relation == tupleset && t.subject.User? &&
            Defined(e, t.subject.obj.typ, computed) ::
      Goal(t.subject.obj, computed, g.user)
  }

  /** No relation of the model uses the exclusion operator. */
  ghost predicate ExclusionFree(e: Env) {
    forall k :: k in e.relations ==> NoDifference(e.relations[k].rewrite)
  }

  predicate NoDifference(rw: Rewrite) {
    match rw
    case This => true
    case Computed(_) => true
    case TupleToUserset(_, _) => true
    case Union(cs) => forall i | 0 <= i < |cs| :: NoDifference(cs[i])
    case Intersection(cs) => forall i | 0 <= i < |cs| :: NoDifference(cs[i])
    case Difference(_, _) => false
  }
}
