/** The search for relationship edges (graph.go): a depth-first walk over the relations of a model,
    with one visited set threaded through sibling calls. */
module Edges {
  import opened Model
  import opened Semantics

  /** A relation of a type, the unit of the search. */
  type Node = (TypeName, RelationName)

  datatype Kind = DirectEdge | ComputedUsersetEdge | TupleToUsersetEdge

  /** An edge, which belongs to the relation it leads into. */
  datatype Edge = Edge(kind: Kind, target: Node, tupleset: RelationName)

  /** An edge with the flag that its results need further evaluation. */
  datatype Found = Found(edge: Edge, flagged: bool)

  datatype Mode = AllEdges | PrunedEdges

  const NO_TUPLESET := RelationName("")

  // ----- what one rewrite contributes by itself

  predicate DirectlyRelated(e: Env, source: Ref, n: Node) {
    source in Restrictions(e, n.0, n.1) || WildcardRef(source.typ) in Restrictions(e, n.0, n.1)
  }

  predicate Matches(source: Ref, t: TypeName, r: RelationName) {
    source == UsersetRef(t, r)
  }

  /** How many restrictions of a tupleset lead to the source. */
  function TtuMatches(e: Env, source: Ref, refs: seq<Ref>, c: RelationName): nat {
    if refs == [] then 0
    else
      TtuMatches(e, source, refs[..|refs| - 1], c) +
      if Defined(e, refs[|refs| - 1].typ, c) && Matches(source, refs[|refs| - 1].typ, c) then 1 else 0
  }

  /** How often the rewrite `rw` of the relation `n` contributes the edge `x`, leaving out what lies
      behind other relations.  Pruning keeps the first operand of an intersection and the base of a
      difference. */
  function Local(e: Env, source: Ref, mode: Mode, n: Node, rw: Rewrite, x: Edge): nat {
    match rw
    case This => if DirectlyRelated(e, source, n) && x == Edge(DirectEdge, n, NO_TUPLESET) then 1 else 0
    case Computed(c) => if Matches(source, n.0, c) && x == Edge(ComputedUsersetEdge, n, NO_TUPLESET) then 1 else 0
    case TupleToUserset(ts, c) =>
      if x == Edge(TupleToUsersetEdge, n, ts) then TtuMatches(e, source, Restrictions(e, n.0, ts), c) else 0
    case Union(cs) => LocalSum(e, source, mode, n, cs, x)
    case Intersection(cs) =>
      if mode.AllEdges? then LocalSum(e, source, mode, n, cs, x)
      else if cs == [] then 0 else Local(e, source, mode, n, cs[0], x)
    case Difference(b, s) =>
      Local(e, source, mode, n, b, x) + if mode.AllEdges? then Local(e, source, mode, n, s, x) else 0
  }

  function LocalSum(e: Env, source: Ref, mode: Mode, n: Node, cs: seq<Rewrite>, x: Edge): nat {
    if cs == [] then 0
    else
      var last := |cs| - 1;
      LocalSum(e, source, mode, n, cs[..last], x) + Local(e, source, mode, n, cs[last], x)
  }

  /** The relations that the rewrite leads on to. */
  function Next(e: Env, mode: Mode, n: Node, rw: Rewrite): set<Node> {
    match rw
    case This => set q | q in Restrictions(e, n.0, n.1) && q.UsersetRef? :: (q.typ, q.relation)
    case Computed(c) => {(n.0, c)}
    case TupleToUserset(ts, c) => set q | q in Restrictions(e, n.0, ts) && Defined(e, q.typ, c) :: (q.typ, c)
    case Union(cs) => NextOfAll(e, mode, n, cs)
    case Intersection(cs) =>
      if mode.AllEdges? then NextOfAll(e, mode, n, cs)
      else if cs == [] then {} else Next(e, mode, n, cs[0])
    case Difference(b, s) => Next(e, mode, n, b) + if mode.AllEdges? then Next(e, mode, n, s) else {}
  }

  function NextOfAll(e: Env, mode: Mode, n: Node, cs: seq<Rewrite>): set<Node> {
    if cs == [] then {}
    else
      var last := |cs| - 1;
      NextOfAll(e, mode, n, cs[..last]) + Next(e, mode, n, cs[last])
  }

  lemma OneMoreOperand(e: Env, source: Ref, mode: Mode, n: Node, cs: seq<Rewrite>, i: nat)
    requires i < |cs|
    ensures NextOfAll(e, mode, n, cs[..i + 1]) == NextOfAll(e, mode, n, cs[..i]) + Next(e, mode, n, cs[i])
    ensures forall x ::
        LocalSum(e, source, mode, n, cs[..i + 1], x) ==
        LocalSum(e, source, mode, n, cs[..i], x) + Local(e, source, mode, n, cs[i], x)
  {
    assert cs[..i + 1][..i] == cs[..i];
  }

  lemma {:induction false} OperandNext(e: Env, mode: Mode, n: Node, cs: seq<Rewrite>, i: nat)
    requires i < |cs|
    ensures Next(e, mode, n, cs[i]) <= NextOfAll(e, mode, n, cs)
    decreases |cs|
  {
    if i < |cs| - 1 {
      OperandNext(e, mode, n, cs[..|cs| - 1], i);
    }
  }

  function Neighbours(e: Env, mode: Mode, n: Node): set<Node> {
    if Defined(e, n.0, n.1) then Next(e, mode, n, RewriteOf(e, n.0, n.1)) else {}
  }

  ghost predicate IsPath(e: Env, mode: Mode, path: seq<Node>) {
    forall i :: 0 <= i < |path| - 1 ==> path[i + 1] in Neighbours(e, mode, path[i])
  }

  ghost predicate Joins(e: Env, mode: Mode, path: seq<Node>, a: Node, b: Node) {
    |path| >= 1 && path[0] == a && path[|path| - 1] == b && IsPath(e, mode, path)
  }

  lemma JoinsFurther(e: Env, mode: Mode, path: seq<Node>, n: Node, a: Node, b: Node)
    requires Joins(e, mode, path, a, b) && a in Neighbours(e, mode, n)
    ensures Joins(e, mode, [n] + path, n, b)
  {
    var longer := [n] + path;
    forall i | 0 <= i < |longer| - 1 ensures longer[i + 1] in Neighbours(e, mode, longer[i]) {
      if i > 0 {
        assert path[i - 1 + 1] in Neighbours(e, mode, path[i - 1]);
      }
    }
  }

  ghost predicate Reachable(e: Env, mode: Mode, a: Node, b: Node) {
    exists path :: Joins(e, mode, path, a, b)
  }

  /** What the search owes: the edges of every reachable relation, each relation expanded once. */
  ghost function Owed(e: Env, source: Ref, mode: Mode, target: Node, x: Edge): nat {
    if Reachable(e, mode, target, x.target) then Expanded(e, source, mode, x) else 0
  }

  function Expanded(e: Env, source: Ref, mode: Mode, x: Edge): nat {
    if Defined(e, x.target.0, x.target.1) then Local(e, source, mode, x.target, RewriteOf(e, x.target.0, x.target.1), x)
        else 0
  }

  /** Every relation that a relation leads on to is defined, and a pruned intersection has an operand. */
  ghost predicate Resolvable(e: Env, mode: Mode) {
    forall n, m :: m in Neighbours(e, mode, n) ==> Defined(e, m.0, m.1)
  }

  predicate Operands(rw: Rewrite) {
    match rw
    case Union(cs) => forall i | 0 <= i < |cs| :: Operands(cs[i])
    case Intersection(cs) => cs != [] && forall i | 0 <= i < |cs| :: Operands(cs[i])
    case Difference(b, s) => Operands(b) && Operands(s)
    case _ => true
  }

  function TtuSoFar(e: Env, source: Ref, n: Node, ts: RelationName, refs: seq<Ref>, c: RelationName, x: Edge): nat {
    if x == Edge(TupleToUsersetEdge, n, ts) then TtuMatches(e, source, refs, c) else 0
  }

  lemma {:induction false} TtuMatchesGrows(e: Env, source: Ref, refs: seq<Ref>, k: nat, c: RelationName)
    requires k <= |refs|
    ensures TtuMatches(e, source, refs[..k], c) <= TtuMatches(e, source, refs, c)
    decreases |refs|
  {
    if k < |refs| {
      assert refs[..|refs| - 1][..k] == refs[..k];
      TtuMatchesGrows(e, source, refs[..|refs| - 1], k, c);
    } else {
      assert refs[..k] == refs;
    }
  }

  // ----- counting

  function Times(found: seq<Found>, x: Edge): nat {
    if found == [] then 0 else Times(found[..|found| - 1], x) + if found[|found| - 1].edge == x then 1 else 0
  }

  lemma {:induction false} TimesConcat(a: seq<Found>, b: seq<Found>, x: Edge)
    ensures Times(a + b, x) == Times(a, x) + Times(b, x)
  {
    if b == [] {
      assert a + b == a;
    } else {
      assert (a + b)[..|a + b| - 1] == a + b[..|b| - 1];
      TimesConcat(a, b[..|b| - 1], x);
    }
  }

  /** The same edges, all flagged. */
  function Flag(found: seq<Found>): (r: seq<Found>)
    ensures |r| == |found| && forall i :: 0 <= i < |r| ==> r[i] == Found(found[i].edge, true)
  {
    seq(|found|, i requires 0 <= i < |found| => Found(found[i].edge, true))
  }

  /** The same edges, the first one flagged. */
  function FlagFirst(found: seq<Found>): seq<Found> {
    if found == [] then [] else [Found(found[0].edge, true)] + found[1..]
  }

  lemma FirstIsFlagged(found: seq<Found>)
    ensures |FlagFirst(found)| == |found|
    ensures forall i :: 0 <= i < |found| ==>
              && FlagFirst(found)[i].edge == found[i].edge
              && (FlagFirst(found)[i].flagged <==> i == 0 || found[i].flagged)
  {}

  lemma {:induction false} TimesSame(a: seq<Found>, b: seq<Found>, x: Edge)
    requires |a| == |b| && forall i :: 0 <= i < |a| ==> a[i].edge == b[i].edge
    ensures Times(a, x) == Times(b, x)
  {
    if a != [] {
      TimesSame(a[..|a| - 1], b[..|b| - 1], x);
    }
  }

  // ----- what a part of the search has done

  /** The visited set has grown by relations that are reachable from `starts` and whose neighbours have
      all been visited. */
  ghost predicate Grows(e: Env, mode: Mode, was: set<Node>, now: set<Node>, starts: set<Node>) {
    && was <= now && starts <= now
    && forall m :: m in now && m !in was ==> Neighbours(e, mode, m) <= now && ReachableFrom(e, mode, starts, m)
  }

  ghost predicate ReachableFrom(e: Env, mode: Mode, starts: set<Node>, m: Node) {
    exists k :: k in starts && Reachable(e, mode, k, m)
  }

  /** The edges of the relations that were visited in between. */
  function NewlyExpanded(e: Env, source: Ref, mode: Mode, was: set<Node>, now: set<Node>, x: Edge): nat {
    if x.target in now && x.target !in was then Expanded(e, source, mode, x) else 0
  }

  lemma GrowsOn(e: Env, mode: Mode, was: set<Node>, mid: set<Node>, now: set<Node>, a: set<Node>, b: set<Node>)
    requires Grows(e, mode, was, mid, a) && Grows(e, mode, mid, now, b)
    ensures Grows(e, mode, was, now, a + b)
  {
    forall m | m in now && m !in was ensures Neighbours(e, mode, m) <= now && ReachableFrom(e, mode, a + b, m) {
      if m in mid {
        var k :| k in a && Reachable(e, mode, k, m);
        assert k in a + b;
      } else {
        var k :| k in b && Reachable(e, mode, k, m);
        assert k in a + b;
      }
    }
  }

  /** Expanding a relation that was not visited before. */
  lemma GrowsUp(e: Env, mode: Mode, was: set<Node>, now: set<Node>, n: Node)
    requires n !in was && Grows(e, mode, was + {n}, now, Neighbours(e, mode, n))
    ensures Grows(e, mode, was, now, {n})
  {
    forall m | m in now && m !in was ensures Neighbours(e, mode, m) <= now && ReachableFrom(e, mode, {n}, m) {
      if m == n {
        assert Joins(e, mode, [n], n, n);
      } else {
        var k :| k in Neighbours(e, mode, n) && Reachable(e, mode, k, m);
        var path :| Joins(e, mode, path, k, m);
        JoinsFurther(e, mode, path, n, k, m);
      }
      assert Reachable(e, mode, n, m);
    }
  }

  lemma {:induction false} StaysInside(e: Env, mode: Mode, inside: set<Node>, path: seq<Node>)
    requires |path| >= 1 && path[0] in inside && IsPath(e, mode, path)
    requires forall m :: m in inside ==> Neighbours(e, mode, m) <= inside
    ensures path[|path| - 1] in inside
  {
    if |path| > 1 {
      assert path[0 + 1] in Neighbours(e, mode, path[0]);
      assert IsPath(e, mode, path[1..]) by {
        forall i | 0 <= i < |path[1..]| - 1 ensures path[1..][i + 1] in Neighbours(e, mode, path[1..][i]) {
          assert path[(i + 1) + 1] in Neighbours(e, mode, path[i + 1]);
        }
      }
      StaysInside(e, mode, inside, path[1..]);
    }
  }

  /** A search that started with nothing visited has expanded exactly the reachable relations. */
  lemma ExpandedAll(e: Env, mode: Mode, now: set<Node>, target: Node)
    requires Grows(e, mode, {}, now, {target})
    ensures forall m :: m in now <==> Reachable(e, mode, target, m)
  {
    forall m | Reachable(e, mode, target, m) ensures m in now {
      var path :| Joins(e, mode, path, target, m);
      StaysInside(e, mode, now, path);
    }
  }

  // ----- edges that need no further evaluation

  /** The rewrite contributes the edge outside all intersections and exclusions. */
  ghost predicate CleanIn(e: Env, source: Ref, n: Node, rw: Rewrite, x: Edge) {
    match rw
    case Union(cs) => exists i :: 0 <= i < |cs| && CleanIn(e, source, n, cs[i], x)
    case Intersection(_) => false
    case Difference(_, _) => false
    case _ => Local(e, source, PrunedEdges, n, rw, x) > 0 && x.target == n
  }

  ghost predicate CleanNext(e: Env, n: Node, rw: Rewrite, m: Node) {
    match rw
    case Union(cs) => exists i :: 0 <= i < |cs| && CleanNext(e, n, cs[i], m)
    case Intersection(_) => false
    case Difference(_, _) => false
    case _ => m in Next(e, PrunedEdges, n, rw)
  }

  ghost predicate IsCleanPath(e: Env, path: seq<Node>) {
    forall i :: 0 <= i < |path| - 1 ==> IsCleanStep(e, path[i], path[i + 1])
  }

  ghost predicate IsCleanStep(e: Env, n: Node, m: Node) {
    Defined(e, n.0, n.1) && CleanNext(e, n, RewriteOf(e, n.0, n.1), m)
  }

  /** Some chain from `n` to the edge passes no intersection and no exclusion. */
  ghost predicate CleanFrom(e: Env, source: Ref, n: Node, x: Edge) {
    exists path :: CleanVia(e, source, path, n, x)
  }

  ghost predicate CleanVia(e: Env, source: Ref, path: seq<Node>, n: Node, x: Edge) {
    && |path| >= 1 && path[0] == n && path[|path| - 1] == x.target && IsCleanPath(e, path)
    && Defined(e, x.target.0, x.target.1) && CleanIn(e, source, x.target, RewriteOf(e, x.target.0, x.target.1), x)
  }

  ghost predicate CleanBelow(e: Env, source: Ref, n: Node, rw: Rewrite, x: Edge) {
    CleanIn(e, source, n, rw, x) || exists m :: CleanNext(e, n, rw, m) && CleanFrom(e, source, m, x)
  }

  lemma CleanUp(e: Env, source: Ref, n: Node, x: Edge)
    requires Defined(e, n.0, n.1) && CleanBelow(e, source, n, RewriteOf(e, n.0, n.1), x)
    ensures CleanFrom(e, source, n, x)
  {
    var rw := RewriteOf(e, n.0, n.1);
    if CleanIn(e, source, n, rw, x) {
      CleanTarget(e, source, n, rw, x);
      assert CleanVia(e, source, [n], n, x);
    } else {
      var m :| CleanNext(e, n, rw, m) && CleanFrom(e, source, m, x);
      var path :| CleanVia(e, source, path, m, x);
      var longer := [n] + path;
      forall i | 0 <= i < |longer| - 1 ensures IsCleanStep(e, longer[i], longer[i + 1]) {
        if i > 0 {
          assert IsCleanStep(e, path[i - 1], path[i - 1 + 1]);
        }
      }
      assert CleanVia(e, source, longer, n, x);
    }
  }

  lemma {:induction false} CleanTarget(e: Env, source: Ref, n: Node, rw: Rewrite, x: Edge)
    requires CleanIn(e, source, n, rw, x)
    ensures x.target == n
  {
    if rw.Union? {
      var i :| 0 <= i < |rw.children| && CleanIn(e, source, n, rw.children[i], x);
      CleanTarget(e, source, n, rw.children[i], x);
    }
  }

  lemma CleanOperand(e: Env, source: Ref, n: Node, cs: seq<Rewrite>, i: nat, x: Edge)
    requires i < |cs| && CleanBelow(e, source, n, cs[i], x)
    ensures CleanBelow(e, source, n, Union(cs), x)
  {
    if !CleanIn(e, source, n, cs[i], x) {
      var m :| CleanNext(e, n, cs[i], m) && CleanFrom(e, source, m, x);
      assert CleanNext(e, n, Union(cs), m);
    }
  }

  // ----- edges that need further evaluation

  /** An operand somewhere in the rewrite, or the rewrite itself; pruning keeps the first operand of an intersection
      and the base of a difference. */
  ghost predicate IsPart(mode: Mode, part: Rewrite, rw: Rewrite)
    decreases rw
  {
    part == rw ||
    match rw
    case Union(cs) => exists i :: 0 <= i < |cs| && IsPart(mode, part, cs[i])
    case Intersection(cs) => exists i :: 0 <= i < |cs| && (mode.AllEdges? || i == 0) && IsPart(mode, part, cs[i])
    case Difference(b, s) => IsPart(mode, part, b) || (mode.AllEdges? && IsPart(mode, part, s))
    case _ => false
  }

  /** The part is an intersection or an exclusion. */
  ghost predicate IsOperator(mode: Mode, part: Rewrite, rw: Rewrite) {
    (part.Intersection? || part.Difference?) && IsPart(mode, part, rw)
  }

  lemma {:induction false} PartOfPart(mode: Mode, part: Rewrite, rw: Rewrite, whole: Rewrite)
    requires IsPart(mode, part, rw) && IsPart(mode, rw, whole)
    ensures IsPart(mode, part, whole)
    decreases whole
  {
    if rw != whole {
      match whole
      case Union(cs) =>
        var i :| 0 <= i < |cs| && IsPart(mode, rw, cs[i]);
        PartOfPart(mode, part, rw, cs[i]);
      case Intersection(cs) =>
        var i :| 0 <= i < |cs| && (mode.AllEdges? || i == 0) && IsPart(mode, rw, cs[i]);
        PartOfPart(mode, part, rw, cs[i]);
      case Difference(b, s) => PartOfPart(mode, part, rw, if IsPart(mode, rw, b) then b else s);
    }
  }

  /** What a part leads on to, and contributes, the whole rewrite does. */
  lemma {:induction false} PartNext(e: Env, source: Ref, mode: Mode, n: Node, part: Rewrite, rw: Rewrite)
    requires IsPart(mode, part, rw)
    ensures Next(e, mode, n, part) <= Next(e, mode, n, rw)
    ensures forall x :: Local(e, source, mode, n, part, x) <= Local(e, source, mode, n, rw, x)
    decreases rw
  {
    if part != rw {
      match rw
      case Union(cs) =>
        var i :| 0 <= i < |cs| && IsPart(mode, part, cs[i]);
        PartNext(e, source, mode, n, part, cs[i]);
        OperandIsIn(e, source, mode, n, cs, i);
      case Intersection(cs) =>
        var i :| 0 <= i < |cs| && (mode.AllEdges? || i == 0) && IsPart(mode, part, cs[i]);
        PartNext(e, source, mode, n, part, cs[i]);
        OperandIsIn(e, source, mode, n, cs, i);
      case Difference(b, s) => PartNext(e, source, mode, n, part, if IsPart(mode, part, b) then b else s);
    }
  }

  lemma OperandIsIn(e: Env, source: Ref, mode: Mode, n: Node, cs: seq<Rewrite>, i: nat)
    requires i < |cs|
    ensures Next(e, mode, n, cs[i]) <= NextOfAll(e, mode, n, cs)
    ensures forall x :: Local(e, source, mode, n, cs[i], x) <= LocalSum(e, source, mode, n, cs, x)
  {
    OperandNext(e, mode, n, cs, i);
    forall x ensures Local(e, source, mode, n, cs[i], x) <= LocalSum(e, source, mode, n, cs, x) {
      LocalIsInSum(e, source, mode, n, cs, i, x);
    }
  }

  /** The part contributes the edge, or leads to the relation that does. */
  ghost predicate LeadsTo(e: Env, source: Ref, mode: Mode, n: Node, part: Rewrite, x: Edge) {
    Local(e, source, mode, n, part, x) > 0 || ReachableFrom(e, mode, Next(e, mode, n, part), x.target)
  }

  ghost predicate MarkedStep(e: Env, mode: Mode, n: Node, m: Node) {
    && Defined(e, n.0, n.1)
    && exists part :: IsOperator(mode, part, RewriteOf(e, n.0, n.1)) && m in Next(e, mode, n, part)
  }

  ghost predicate MarkedEnd(e: Env, source: Ref, mode: Mode, x: Edge) {
    && Defined(e, x.target.0, x.target.1)
    && exists part :: IsOperator(mode, part, RewriteOf(e, x.target.0, x.target.1)) &&
                      Local(e, source, mode, x.target, part, x) > 0
  }

  /** The chain from `n` to the edge passes an intersection or an exclusion. */
  ghost predicate MarkedVia(e: Env, source: Ref, mode: Mode, path: seq<Node>, n: Node, x: Edge) {
    && Joins(e, mode, path, n, x.target)
    && (MarkedEnd(e, source, mode, x) || exists i :: 0 <= i < |path| - 1 && MarkedStep(e, mode, path[i], path[i + 1]))
  }

  ghost predicate MarkedFrom(e: Env, source: Ref, mode: Mode, n: Node, x: Edge) {
    exists path :: MarkedVia(e, source, mode, path, n, x)
  }

  ghost predicate MarkedBelow(e: Env, source: Ref, mode: Mode, n: Node, rw: Rewrite, x: Edge) {
    || (exists part :: IsOperator(mode, part, rw) && LeadsTo(e, source, mode, n, part, x))
    || (exists m :: m in Next(e, mode, n, rw) && MarkedFrom(e, source, mode, m, x))
  }

  lemma MarkedPart(e: Env, source: Ref, mode: Mode, n: Node, part: Rewrite, rw: Rewrite, x: Edge)
    requires IsPart(mode, part, rw) && MarkedBelow(e, source, mode, n, part, x)
    ensures MarkedBelow(e, source, mode, n, rw, x)
  {
    PartNext(e, source, mode, n, part, rw);
    if op :| IsOperator(mode, op, part) && LeadsTo(e, source, mode, n, op, x) {
      PartOfPart(mode, op, part, rw);
      assert IsOperator(mode, op, rw);
    }
  }

  lemma MarkedUp(e: Env, source: Ref, mode: Mode, n: Node, x: Edge)
    requires Defined(e, n.0, n.1) && MarkedBelow(e, source, mode, n, RewriteOf(e, n.0, n.1), x)
    ensures MarkedFrom(e, source, mode, n, x)
  {
    var rw := RewriteOf(e, n.0, n.1);
    if m :| m in Next(e, mode, n, rw) && MarkedFrom(e, source, mode, m, x) {
      var path :| MarkedVia(e, source, mode, path, m, x);
      MarkedFurther(e, source, mode, path, n, m, x);
    } else {
      var part :| IsOperator(mode, part, rw) && LeadsTo(e, source, mode, n, part, x);
      if Local(e, source, mode, n, part, x) > 0 {
        LocalTarget(e, source, mode, n, part, x);
        assert MarkedEnd(e, source, mode, x);
        assert MarkedVia(e, source, mode, [n], n, x);
      } else {
        var m :| m in Next(e, mode, n, part) && Reachable(e, mode, m, x.target);
        var path :| Joins(e, mode, path, m, x.target);
        PartNext(e, source, mode, n, part, rw);
        JoinsFurther(e, mode, path, n, m, x.target);
        var longer := [n] + path;
        assert MarkedStep(e, mode, longer[0], longer[0 + 1]);
        assert MarkedVia(e, source, mode, longer, n, x);
      }
    }
  }

  lemma MarkedFurther(e: Env, source: Ref, mode: Mode, path: seq<Node>, n: Node, m: Node, x: Edge)
    requires MarkedVia(e, source, mode, path, m, x) && m in Neighbours(e, mode, n)
    ensures MarkedFrom(e, source, mode, n, x)
  {
    JoinsFurther(e, mode, path, n, m, x.target);
    var longer := [n] + path;
    if i :| 0 <= i < |path| - 1 && MarkedStep(e, mode, path[i], path[i + 1]) {
      assert MarkedStep(e, mode, longer[i + 1], longer[i + 1 + 1]);
    }
    assert MarkedVia(e, source, mode, longer, n, x);
  }

  /** All that was found under an operator lies behind it. */
  lemma FoundUnderOperator(e: Env, source: Ref, mode: Mode, n: Node, part: Rewrite, rw: Rewrite, was: set<Node>,
                           now: set<Node>, found: seq<Found>)
    requires (rw.Intersection? || rw.Difference?) && IsPart(mode, part, rw)
    requires Grows(e, mode, was, now, Next(e, mode, n, part))
    requires forall x :: Times(found, x) == Local(e, source, mode, n, part, x) +
                                            NewlyExpanded(e, source, mode, was, now, x)
    ensures forall i :: 0 <= i < |found| ==> MarkedBelow(e, source, mode, n, rw, found[i].edge)
  {
    forall i | 0 <= i < |found| ensures MarkedBelow(e, source, mode, n, rw, found[i].edge) {
      var x := found[i].edge;
      IsFound(found, i);
      PartNext(e, source, mode, n, part, rw);
      if Local(e, source, mode, n, part, x) == 0 {
        assert ReachableFrom(e, mode, Next(e, mode, n, part), x.target);
        var k :| k in Next(e, mode, n, part) && Reachable(e, mode, k, x.target);
        assert k in Next(e, mode, n, rw);
      }
      assert IsOperator(mode, rw, rw) && LeadsTo(e, source, mode, n, rw, x);
    }
  }

  lemma {:induction false} IsFound(found: seq<Found>, i: nat)
    requires i < |found|
    ensures Times(found, found[i].edge) > 0
    decreases |found|
  {
    if i < |found| - 1 {
      IsFound(found[..|found| - 1], i);
    }
  }

  /** Without intersections and exclusions in the model, no chain passes one. */
  lemma NothingMarked(e: Env, source: Ref, mode: Mode, n: Node, x: Edge)
    requires forall k :: k in e.relations ==> OperatorCount(e.relations[k].rewrite) == 0
    ensures !MarkedFrom(e, source, mode, n, x)
  {
    forall k, part | k in e.relations && IsOperator(mode, part, e.relations[k].rewrite) ensures false {
      PartHasFewer(mode, part, e.relations[k].rewrite);
    }
  }

  // ----- how many edges are flagged

  /** The intersections and exclusions in a rewrite. */
  function OperatorCount(rw: Rewrite): nat {
    match rw
    case Union(cs) => OperatorCounts(cs)
    case Intersection(cs) => 1 + OperatorCounts(cs)
    case Difference(b, s) => 1 + OperatorCount(b) + OperatorCount(s)
    case _ => 0
  }

  function OperatorCounts(cs: seq<Rewrite>): nat {
    if cs == [] then 0 else OperatorCounts(cs[..|cs| - 1]) + OperatorCount(cs[|cs| - 1])
  }

  lemma {:induction false} OperandHasFewer(cs: seq<Rewrite>, i: nat)
    requires i < |cs|
    ensures OperatorCount(cs[i]) <= OperatorCounts(cs)
    decreases |cs|
  {
    if i < |cs| - 1 {
      OperandHasFewer(cs[..|cs| - 1], i);
    }
  }

  lemma {:induction false} PartHasFewer(mode: Mode, part: Rewrite, rw: Rewrite)
    requires IsPart(mode, part, rw)
    ensures OperatorCount(part) <= OperatorCount(rw)
    decreases rw
  {
    if part != rw {
      match rw
      case Union(cs) =>
        var i :| 0 <= i < |cs| && IsPart(mode, part, cs[i]);
        PartHasFewer(mode, part, cs[i]);
        OperandHasFewer(cs, i);
      case Intersection(cs) =>
        var i :| 0 <= i < |cs| && (mode.AllEdges? || i == 0) && IsPart(mode, part, cs[i]);
        PartHasFewer(mode, part, cs[i]);
        OperandHasFewer(cs, i);
      case Difference(b, s) => PartHasFewer(mode, part, if IsPart(mode, part, b) then b else s);
    }
  }

  /** The operators in the rewrites of some relations, numbered within each. */
  ghost function OperatorsOf(e: Env, nodes: set<Node>): set<(Node, nat)> {
    set m, i: nat | m in nodes && m in e.relations && i < OperatorCount(e.relations[m].rewrite) :: (m, i)
  }

  lemma OperatorsAdd(e: Env, a: set<Node>, b: set<Node>)
    requires a !! b
    ensures |OperatorsOf(e, a + b)| == |OperatorsOf(e, a)| + |OperatorsOf(e, b)|
  {
    assert OperatorsOf(e, a + b) == OperatorsOf(e, a) + OperatorsOf(e, b);
    assert OperatorsOf(e, a) !! OperatorsOf(e, b);
  }

  lemma OperatorsOfOne(e: Env, n: Node)
    requires Defined(e, n.0, n.1)
    ensures |OperatorsOf(e, {n})| == OperatorCount(RewriteOf(e, n.0, n.1))
  {
    OperatorsUpTo(n, OperatorCount(RewriteOf(e, n.0, n.1)));
    assert OperatorsOf(e, {n}) == Numbered(n, OperatorCount(RewriteOf(e, n.0, n.1)));
  }

  ghost function Numbered(n: Node, k: nat): set<(Node, nat)> {
    set i: nat | i < k :: (n, i)
  }

  lemma {:induction false} OperatorsUpTo(n: Node, k: nat)
    ensures |Numbered(n, k)| == k
  {
    if k > 0 {
      OperatorsUpTo(n, k - 1);
      assert Numbered(n, k) == Numbered(n, k - 1) + {(n, k - 1)};
    }
  }

  /** The operators of the relations visited in between. */
  ghost function Budget(e: Env, was: set<Node>, now: set<Node>): nat {
    |OperatorsOf(e, now - was)|
  }

  lemma BudgetAdds(e: Env, was: set<Node>, mid: set<Node>, now: set<Node>)
    requires was <= mid <= now
    ensures Budget(e, was, now) == Budget(e, was, mid) + Budget(e, mid, now)
  {
    OperatorsAdd(e, mid - was, now - mid);
    assert now - was == (mid - was) + (now - mid);
  }

  /** Tuple-to-userset edges from a relation that itself involves an operator are flagged. */
  predicate IsInvolved(source: Ref, involves: Node -> bool, x: Edge) {
    x.kind == TupleToUsersetEdge && source.UsersetRef? && involves((source.typ, source.relation))
  }

  /** The edges flagged for another reason. */
  function Extra(source: Ref, involves: Node -> bool, found: seq<Found>): nat {
    if found == [] then 0
    else
      var last := |found| - 1;
      Extra(source, involves, found[..last]) +
      if found[last].flagged && !IsInvolved(source, involves, found[last].edge) then 1 else 0
  }

  lemma {:induction false} ExtraConcat(source: Ref, involves: Node -> bool, a: seq<Found>, b: seq<Found>)
    ensures Extra(source, involves, a + b) == Extra(source, involves, a) + Extra(source, involves, b)
  {
    if b == [] {
      assert a + b == a;
    } else {
      assert (a + b)[..|a + b| - 1] == a + b[..|b| - 1];
      ExtraConcat(source, involves, a, b[..|b| - 1]);
    }
  }

  lemma ExtraFirst(source: Ref, involves: Node -> bool, found: seq<Found>)
    ensures Extra(source, involves, FlagFirst(found)) <= Extra(source, involves, found) + 1
  {
    if found != [] {
      assert found == [found[0]] + found[1..];
      ExtraConcat(source, involves, [found[0]], found[1..]);
      ExtraConcat(source, involves, [Found(found[0].edge, true)], found[1..]);
    }
  }

  // ----- the search

  class Search {
    const e: Env
    const source: Ref
    const mode: Mode
    /** Whether a relation involves an intersection or an exclusion, as the type system tells. */
    const involves: Node -> bool
    var visited: set<Node>

    constructor (e: Env, source: Ref, mode: Mode, involves: Node -> bool)
      ensures this.e == e && this.source == source && this.mode == mode && this.involves == involves && visited == {}
    {
      this.e, this.source, this.mode, this.involves := e, source, mode, involves;
      visited := {};
    }

    /** In pruned mode, an edge whose flag is not set needs no further evaluation. */
    ghost predicate Sound(n: Node, rw: Rewrite, found: seq<Found>) {
      mode.PrunedEdges? ==> forall i :: 0 <= i < |found| && !found[i].flagged ==>
          CleanBelow(e, source, n, rw, found[i].edge)
    }

    ghost predicate SoundFrom(n: Node, found: seq<Found>) {
      mode.PrunedEdges? ==> forall i :: 0 <= i < |found| && !found[i].flagged ==> CleanFrom(e, source, n, found[i].edge)
    }

    /** An edge is flagged if the relation it starts from involves an operator; otherwise it is flagged only behind an
        intersection or an exclusion, and in full mode at most once for every one of them. */
    ghost predicate Fair(n: Node, rw: Rewrite, operators: nat, was: set<Node>, now: set<Node>, found: seq<Found>) {
      && (forall i :: 0 <= i < |found| ==>
            && (IsInvolved(source, involves, found[i].edge) ==> found[i].flagged)
            && (found[i].flagged ==>
                  IsInvolved(source, involves, found[i].edge) || MarkedBelow(e, source, mode, n, rw, found[i].edge)))
      && (mode.AllEdges? ==> Extra(source, involves, found) <= operators + Budget(e, was, now))
    }

    ghost predicate FairFrom(n: Node, was: set<Node>, now: set<Node>, found: seq<Found>) {
      && (forall i :: 0 <= i < |found| ==>
            && (IsInvolved(source, involves, found[i].edge) ==> found[i].flagged)
            && (found[i].flagged ==>
                  IsInvolved(source, involves, found[i].edge) || MarkedFrom(e, source, mode, n, found[i].edge)))
      && (mode.AllEdges? ==> Extra(source, involves, found) <= Budget(e, was, now))
    }

    /** The base of a difference contributes an edge, or leads on to a relation that does. */
    ghost predicate Yields(n: Node, base: Rewrite, was: set<Node>) {
      exists x ::
        || Local(e, source, mode, n, base, x) > 0
        || (x.target in Next(e, mode, n, base) && x.target !in was && Expanded(e, source, mode, x) > 0)
    }

    /** In full mode the first edge found under an intersection, or under the base of a difference, is flagged. */
    ghost predicate FlagsFirst(n: Node, rw: Rewrite, was: set<Node>, found: seq<Found>) {
      mode.AllEdges? ==>
        && (rw.Intersection? && found != [] ==> found[0].flagged)
        && (rw.Difference? && Yields(n, rw.base, was) ==> found != [] && found[0].flagged)
    }

    /** Collects the edges of a relation and of all that it leads on to, unless it was visited before.
        The search fails where a relation is undefined. */
    method GetRelationshipEdges(target: Node) returns (found: seq<Found>, ok: bool)
      requires mode.PrunedEdges? ==> forall k :: k in e.relations ==> Operands(e.relations[k].rewrite)
      modifies this`visited
      ensures old(visited) <= visited
      ensures Defined(e, target.0, target.1) && Resolvable(e, mode) ==> ok
      ensures ok ==> Grows(e, mode, old(visited), visited, {target})
      ensures ok ==> forall x :: Times(found, x) == NewlyExpanded(e, source, mode, old(visited), visited, x)
      ensures SoundFrom(target, found)
      ensures ok ==> FairFrom(target, old(visited), visited, found)
      ensures ok && target !in old(visited) ==>
                && Defined(e, target.0, target.1)
                && FlagsFirst(target, RewriteOf(e, target.0, target.1), old(visited) + {target}, found)
      decreases e.relations.Keys - visited, 0
    {
      found := [];
      if target in visited {
        return found, true;
      }
      visited := visited + {target};
      if !Defined(e, target.0, target.1) {
        return found, false;
      }
      assert target in e.relations.Keys;
      var rw := RewriteOf(e, target.0, target.1);
      assert Neighbours(e, mode, target) == Next(e, mode, target, rw);
      found, ok := WithRewrite(target, rw);
      if ok {
        GrowsUp(e, mode, old(visited), visited, target);
        ExpandedOnce(e, source, mode, old(visited), visited, target, found);
        FairUp(target, old(visited), visited, found);
      }
      SoundUp(target, found);
    }

    lemma SoundUp(n: Node, found: seq<Found>)
      requires Defined(e, n.0, n.1) && Sound(n, RewriteOf(e, n.0, n.1), found)
      ensures SoundFrom(n, found)
    {
      forall i | 0 <= i < |found| && mode.PrunedEdges? && !found[i].flagged
        ensures CleanFrom(e, source, n, found[i].edge)
      {
        CleanUp(e, source, n, found[i].edge);
      }
    }

    lemma FairUp(n: Node, was: set<Node>, now: set<Node>, found: seq<Found>)
      requires Defined(e, n.0, n.1) && n !in was && was + {n} <= now
      requires var rw := RewriteOf(e, n.0, n.1); Fair(n, rw, OperatorCount(rw), was + {n}, now, found)
      ensures FairFrom(n, was, now, found)
    {
      forall i | 0 <= i < |found| && found[i].flagged && !IsInvolved(source, involves, found[i].edge)
        ensures MarkedFrom(e, source, mode, n, found[i].edge)
      {
        MarkedUp(e, source, mode, n, found[i].edge);
      }
      BudgetAdds(e, was, was + {n}, now);
      assert was + {n} - was == {n};
      OperatorsOfOne(e, n);
    }

    /** What a neighbour yields is fair for the relation that leads on to it. */
    lemma FairAfter(n: Node, rw: Rewrite, m: Node, operators: nat, was: set<Node>, mid: set<Node>, now: set<Node>,
                    before: seq<Found>, more: seq<Found>)
      requires was <= mid <= now && m in Next(e, mode, n, rw)
      requires Fair(n, rw, operators, was, mid, before) && FairFrom(m, mid, now, more)
      ensures Fair(n, rw, operators, was, now, before + more)
    {
      BudgetAdds(e, was, mid, now);
      ExtraConcat(source, involves, before, more);
    }

    lemma FairWith(n: Node, rw: Rewrite, part: Rewrite, operators: nat, was: set<Node>, mid: set<Node>, now: set<Node>,
                   before: seq<Found>, more: seq<Found>)
      requires was <= mid <= now && IsPart(mode, part, rw)
      requires Fair(n, rw, operators, was, mid, before) && Fair(n, part, OperatorCount(part), mid, now, more)
      ensures Fair(n, rw, operators + OperatorCount(part), was, now, before + more)
    {
      BudgetAdds(e, was, mid, now);
      ExtraConcat(source, involves, before, more);
      forall i | 0 <= i < |more| && MarkedBelow(e, source, mode, n, part, more[i].edge)
        ensures MarkedBelow(e, source, mode, n, rw, more[i].edge)
      {
        MarkedPart(e, source, mode, n, part, rw, more[i].edge);
      }
    }

    /** Under an operator, pruning flags everything. */
    lemma FairAll(n: Node, part: Rewrite, rw: Rewrite, was: set<Node>, now: set<Node>, found: seq<Found>)
      requires mode.PrunedEdges? && (rw.Intersection? || rw.Difference?) && IsPart(mode, part, rw)
      requires Grows(e, mode, was, now, Next(e, mode, n, part))
      requires forall x :: Times(found, x) == Local(e, source, mode, n, part, x) +
                                              NewlyExpanded(e, source, mode, was, now, x)
      ensures Fair(n, rw, OperatorCount(rw), was, now, Flag(found))
    {
      FoundUnderOperator(e, source, mode, n, part, rw, was, now, found);
    }

    /** Under an operator, the full search flags the first edge. */
    lemma FairFirst(n: Node, part: Rewrite, rw: Rewrite, operators: nat, was: set<Node>, now: set<Node>,
                    found: seq<Found>)
      requires mode.AllEdges? && (rw.Intersection? || rw.Difference?) && IsPart(mode, part, rw)
      requires Grows(e, mode, was, now, Next(e, mode, n, part))
      requires forall x :: Times(found, x) == Local(e, source, mode, n, part, x) +
                                              NewlyExpanded(e, source, mode, was, now, x)
      requires Fair(n, part, operators, was, now, found)
      ensures Fair(n, rw, operators + 1, was, now, FlagFirst(found))
    {
      FoundUnderOperator(e, source, mode, n, part, rw, was, now, found);
      ExtraFirst(source, involves, found);
      FirstIsFlagged(found);
    }

    method WithRewrite(n: Node, rw: Rewrite) returns (found: seq<Found>, ok: bool)
      requires n in visited && Defined(e, n.0, n.1)
      requires mode.PrunedEdges? ==> Operands(rw) && forall k :: k in e.relations ==> Operands(e.relations[k].rewrite)
      modifies this`visited
      ensures old(visited) <= visited
      ensures (forall m :: m in Next(e, mode, n, rw) ==> Defined(e, m.0, m.1)) && Resolvable(e, mode) ==> ok
      ensures ok ==> Grows(e, mode, old(visited), visited, Next(e, mode, n, rw))
      ensures ok ==> forall x ::
          Times(found, x) == Local(e, source, mode, n, rw, x) + NewlyExpanded(e, source, mode, old(visited), visited, x)
      ensures Sound(n, rw, found)
      ensures ok ==> Fair(n, rw, OperatorCount(rw), old(visited), visited, found)
      ensures ok ==> FlagsFirst(n, rw, old(visited), found)
      decreases e.relations.Keys - visited, 3, rw, 1
    {
      match rw
      case This => found, ok := OfThis(n);
      case Computed(c) => found, ok := OfComputed(n, c);
      case TupleToUserset(ts, c) => found, ok := OfTupleToUserset(n, ts, c);
      case Union(cs) =>
        found, ok := OfOperands(n, rw, cs);
      case Intersection(cs) =>
        if mode.PrunedEdges? {
          found, ok := WithRewrite(n, cs[0]);
          FlagKeepsTimes(found);
          if ok {
            FairAll(n, cs[0], rw, old(visited), visited, found);
          }
          found := Flag(found);
        } else {
          found, ok := OfOperands(n, rw, cs);
          FlagKeepsTimes(found);
          if ok {
            FairFirst(n, rw, rw, OperatorCounts(cs), old(visited), visited, found);
          }
          found := FlagFirst(found);
        }
      case Difference(b, s) => found, ok := OfDifference(n, rw);
    }

    method OfThis(n: Node) returns (found: seq<Found>, ok: bool)
      requires n in visited && Defined(e, n.0, n.1)
      requires mode.PrunedEdges? ==> forall k :: k in e.relations ==> Operands(e.relations[k].rewrite)
      modifies this`visited
      ensures old(visited) <= visited
      ensures (forall m :: m in Next(e, mode, n, This) ==> Defined(e, m.0, m.1)) && Resolvable(e, mode) ==> ok
      ensures ok ==> Grows(e, mode, old(visited), visited, Next(e, mode, n, This))
      ensures ok ==> forall x ::
          Times(found, x) ==
          Local(e, source, mode, n, This, x) + NewlyExpanded(e, source, mode, old(visited), visited, x)
      ensures Sound(n, This, found)
      ensures ok ==> Fair(n, This, OperatorCount(This), old(visited), visited, found)
      decreases e.relations.Keys - visited, 2
    {
      found, ok := [], true;
      if DirectlyRelated(e, source, n) {
        found := [Found(Edge(DirectEdge, n, NO_TUPLESET), false)];
      }
      var refs := Restrictions(e, n.0, n.1);
      ghost var starts: set<Node> := {};
      for i := 0 to |refs|
        invariant ok && old(visited) <= visited
        invariant starts == set q | q in refs[..i] && q.UsersetRef? :: (q.typ, q.relation)
        invariant Grows(e, mode, old(visited), visited, starts)
        invariant forall x ::
            Times(found, x) ==
            Local(e, source, mode, n, This, x) + NewlyExpanded(e, source, mode, old(visited), visited, x)
        invariant Sound(n, This, found)
        invariant Fair(n, This, 0, old(visited), visited, found)
      {
        assert refs[i] in refs;
        assert refs[..i + 1] == refs[..i] + [refs[i]];
        if refs[i].UsersetRef? {
          found, ok := Follow(n, This, found, starts, (refs[i].typ, refs[i].relation), old(visited));
          if !ok {
            return;
          }
          starts := starts + {(refs[i].typ, refs[i].relation)};
        }
      }
      assert refs[..|refs|] == refs;
    }

    /** Goes on to a neighbour and adds what it finds. */
    method Follow(n: Node, ghost rw: Rewrite, before: seq<Found>, ghost starts: set<Node>, m: Node,
                  ghost origin: set<Node>)
      returns (found: seq<Found>, ok: bool)
      requires Grows(e, mode, origin, visited, starts) && CleanNext(e, n, rw, m) && m in Next(e, mode, n, rw) &&
               Sound(n, rw, before) && Fair(n, rw, OperatorCount(rw), origin, visited, before) && origin <= visited
      requires mode.PrunedEdges? ==> forall k :: k in e.relations ==> Operands(e.relations[k].rewrite)
      modifies this`visited
      ensures old(visited) <= visited
      ensures Defined(e, m.0, m.1) && Resolvable(e, mode) ==> ok
      ensures ok ==> Grows(e, mode, origin, visited, starts + {m})
      ensures ok ==> forall x ::
          Times(found, x) + NewlyExpanded(e, source, mode, origin, old(visited), x) ==
          Times(before, x) + NewlyExpanded(e, source, mode, origin, visited, x)
      ensures Sound(n, rw, found)
      ensures ok ==> Fair(n, rw, OperatorCount(rw), origin, visited, found)
      decreases e.relations.Keys - visited, 1
    {
      var more;
      more, ok := GetRelationshipEdges(m);
      found := before + more;
      if ok {
        GrowsOn(e, mode, origin, old(visited), visited, starts, {m});
        FairAfter(n, rw, m, OperatorCount(rw), origin, old(visited), visited, before, more);
        forall x { TimesConcat(before, more, x); }
      }
      forall i | 0 <= i < |found| && mode.PrunedEdges? && !found[i].flagged
        ensures CleanBelow(e, source, n, rw, found[i].edge)
      {
        if i >= |before| {
          assert found[i] == more[i - |before|];
        }
      }
    }

    method OfComputed(n: Node, c: RelationName) returns (found: seq<Found>, ok: bool)
      requires n in visited && Defined(e, n.0, n.1)
      requires mode.PrunedEdges? ==> forall k :: k in e.relations ==> Operands(e.relations[k].rewrite)
      modifies this`visited
      ensures old(visited) <= visited
      ensures (forall m :: m in Next(e, mode, n, Computed(c)) ==> Defined(e, m.0, m.1)) && Resolvable(e, mode) ==> ok
      ensures ok ==> Grows(e, mode, old(visited), visited, Next(e, mode, n, Computed(c)))
      ensures ok ==> forall x ::
          Times(found, x) ==
          Local(e, source, mode, n, Computed(c), x) + NewlyExpanded(e, source, mode, old(visited), visited, x)
      ensures Sound(n, Computed(c), found)
      ensures ok ==> Fair(n, Computed(c), OperatorCount(Computed(c)), old(visited), visited, found)
      decreases e.relations.Keys - visited, 2
    {
      found := [];
      if Matches(source, n.0, c) {
        found := [Found(Edge(ComputedUsersetEdge, n, NO_TUPLESET), false)];
      }
      var own := found;
      found, ok := Follow(n, Computed(c), own, {}, (n.0, c), visited);
      assert forall x :: Times(own, x) == Local(e, source, mode, n, Computed(c), x);
    }

    method OfTupleToUserset(n: Node, ts: RelationName, c: RelationName) returns (found: seq<Found>, ok: bool)
      requires n in visited && Defined(e, n.0, n.1)
      requires mode.PrunedEdges? ==> forall k :: k in e.relations ==> Operands(e.relations[k].rewrite)
      modifies this`visited
      ensures old(visited) <= visited
      ensures Resolvable(e, mode) ==>
                (forall m :: m in Next(e, mode, n, TupleToUserset(ts, c)) ==> Defined(e, m.0, m.1)) ==> ok
      ensures ok ==> Grows(e, mode, old(visited), visited, Next(e, mode, n, TupleToUserset(ts, c)))
      ensures ok ==> forall x ::
          Times(found, x) ==
          Local(e, source, mode, n, TupleToUserset(ts, c), x) + NewlyExpanded(e, source, mode, old(visited), visited, x)
      ensures Sound(n, TupleToUserset(ts, c), found)
      ensures ok ==> Fair(n, TupleToUserset(ts, c), OperatorCount(TupleToUserset(ts, c)), old(visited), visited, found)
      decreases e.relations.Keys - visited, 2
    {
      found, ok := [], true;
      var rw := TupleToUserset(ts, c);
      var refs := Restrictions(e, n.0, ts);
      ghost var starts: set<Node> := {};
      for i := 0 to |refs|
        invariant ok && old(visited) <= visited
        invariant starts == set q | q in refs[..i] && Defined(e, q.typ, c) :: (q.typ, c)
        invariant Grows(e, mode, old(visited), visited, starts)
        invariant forall x ::
            Times(found, x) ==
            TtuSoFar(e, source, n, ts, refs[..i], c, x) + NewlyExpanded(e, source, mode, old(visited), visited, x)
        invariant Sound(n, rw, found)
        invariant Fair(n, rw, 0, old(visited), visited, found)
      {
        assert refs[i] in refs;
        assert refs[..i + 1] == refs[..i] + [refs[i]];
        assert refs[..i + 1][..i] == refs[..i];
        if Defined(e, refs[i].typ, c) {
          found := AddTtuEdge(n, ts, c, found, refs[i], i, refs, old(visited));
          found, ok := Follow(n, rw, found, starts, (refs[i].typ, c), old(visited));
          if !ok {
            return;
          }
          starts := starts + {(refs[i].typ, c)};
        }
      }
      assert refs[..|refs|] == refs;
    }

    method AddTtuEdge(n: Node, ts: RelationName, c: RelationName, before: seq<Found>, q: Ref, ghost i: nat,
                      ghost refs: seq<Ref>, ghost was: set<Node>)
      returns (found: seq<Found>)
      requires i < |refs| && refs[i] == q && refs == Restrictions(e, n.0, ts) && Defined(e, q.typ, c) &&
               Sound(n, TupleToUserset(ts, c), before)
      requires Fair(n, TupleToUserset(ts, c), 0, was, visited, before)
      ensures Fair(n, TupleToUserset(ts, c), 0, was, visited, found)
      ensures forall x ::
          Times(found, x) - Times(before, x) ==
          TtuSoFar(e, source, n, ts, refs[..i + 1], c, x) - TtuSoFar(e, source, n, ts, refs[..i], c, x)
      ensures Sound(n, TupleToUserset(ts, c), found)
    {
      assert refs[..i + 1][..i] == refs[..i];
      found := before;
      if Matches(source, q.typ, c) {
        var x := Edge(TupleToUsersetEdge, n, ts);
        found := before + [Found(x, involves((q.typ, c)))];
        TtuMatchesGrows(e, source, refs, i + 1, c);
        assert found[..|before|] == before;
      }
    }

    /** The operands of a union, or of an intersection when all edges are asked for. */
    method OfOperands(n: Node, ghost rw: Rewrite, cs: seq<Rewrite>) returns (found: seq<Found>, ok: bool)
      requires rw == Union(cs) || (rw == Intersection(cs) && mode.AllEdges?)
      requires mode.PrunedEdges? ==> Operands(rw)
      requires n in visited && Defined(e, n.0, n.1)
      requires mode.PrunedEdges? ==> forall k :: k in e.relations ==> Operands(e.relations[k].rewrite)
      modifies this`visited
      ensures old(visited) <= visited
      ensures (forall m :: m in Next(e, mode, n, rw) ==> Defined(e, m.0, m.1)) && Resolvable(e, mode) ==> ok
      ensures ok ==> Grows(e, mode, old(visited), visited, Next(e, mode, n, rw))
      ensures ok ==> forall x ::
          Times(found, x) == Local(e, source, mode, n, rw, x) + NewlyExpanded(e, source, mode, old(visited), visited, x)
      ensures Sound(n, rw, found)
      ensures ok ==> Fair(n, rw, OperatorCounts(cs), old(visited), visited, found)
      decreases e.relations.Keys - visited, 3, rw, 0
    {
      found, ok := [], true;
      ghost var starts: set<Node> := {};
      for i := 0 to |cs|
        invariant ok && old(visited) <= visited
        invariant starts == NextOfAll(e, mode, n, cs[..i])
        invariant Grows(e, mode, old(visited), visited, starts)
        invariant forall x ::
            Times(found, x) ==
            LocalSum(e, source, mode, n, cs[..i], x) + NewlyExpanded(e, source, mode, old(visited), visited, x)
        invariant Sound(n, rw, found)
        invariant Fair(n, rw, OperatorCounts(cs[..i]), old(visited), visited, found)
      {
        OneMoreOperand(e, source, mode, n, cs, i);
        OperandNext(e, mode, n, cs, i);
        assert cs[..i + 1][..i] == cs[..i];
        found, ok := Join(n, rw, cs[i], found, starts, old(visited), OperatorCounts(cs[..i]));
        if !ok {
          return;
        }
        starts := starts + Next(e, mode, n, cs[i]);
      }
      assert cs[..|cs|] == cs;
    }

    /** Searches one operand and adds what it finds. */
    method Join(n: Node, ghost rw: Rewrite, c: Rewrite, before: seq<Found>, ghost starts: set<Node>,
                ghost origin: set<Node>, ghost operators: nat)
      returns (found: seq<Found>, ok: bool)
      requires c < rw && Sound(n, rw, before)
      requires mode.PrunedEdges? ==> rw.Union? && c in rw.children && Operands(c)
      requires IsPart(mode, c, rw) && origin <= visited && Fair(n, rw, operators, origin, visited, before)
      requires Grows(e, mode, origin, visited, starts)
      requires n in visited && Defined(e, n.0, n.1)
      requires mode.PrunedEdges? ==> forall k :: k in e.relations ==> Operands(e.relations[k].rewrite)
      modifies this`visited
      ensures old(visited) <= visited
      ensures (forall m :: m in Next(e, mode, n, c) ==> Defined(e, m.0, m.1)) && Resolvable(e, mode) ==> ok
      ensures ok ==> Grows(e, mode, origin, visited, starts + Next(e, mode, n, c))
      ensures ok ==> forall x ::
          Times(found, x) + NewlyExpanded(e, source, mode, origin, old(visited), x) ==
          Times(before, x) + Local(e, source, mode, n, c, x) + NewlyExpanded(e, source, mode, origin, visited, x)
      ensures Sound(n, rw, found)
      ensures ok ==> Fair(n, rw, operators + OperatorCount(c), origin, visited, found)
      ensures ok ==> before <= found
      decreases e.relations.Keys - visited, 3, c, 2
    {
      var more;
      more, ok := WithRewrite(n, c);
      found := before + more;
      if ok {
        GrowsOn(e, mode, origin, old(visited), visited, starts, Next(e, mode, n, c));
        FairWith(n, rw, c, operators, origin, old(visited), visited, before, more);
        forall x { TimesConcat(before, more, x); }
      }
      forall i | 0 <= i < |found| && mode.PrunedEdges? && !found[i].flagged
        ensures CleanBelow(e, source, n, rw, found[i].edge)
      {
        if i >= |before| {
          assert found[i] == more[i - |before|];
          var j :| 0 <= j < |rw.children| && rw.children[j] == c;
          CleanOperand(e, source, n, rw.children, j, found[i].edge);
        }
      }
    }

    lemma YieldsSome(n: Node, base: Rewrite, was: set<Node>, now: set<Node>, found: seq<Found>)
      requires Grows(e, mode, was, now, Next(e, mode, n, base))
      requires forall x :: Times(found, x) == Local(e, source, mode, n, base, x) +
                                              NewlyExpanded(e, source, mode, was, now, x)
      ensures Yields(n, base, was) ==> found != []
    {
      if Yields(n, base, was) {
        var x :|
          || Local(e, source, mode, n, base, x) > 0
          || (x.target in Next(e, mode, n, base) && x.target !in was && Expanded(e, source, mode, x) > 0);
        assert Times(found, x) > 0;
      }
    }

    method OfDifference(n: Node, rw: Rewrite) returns (found: seq<Found>, ok: bool)
      requires rw.Difference?
      requires mode.PrunedEdges? ==> Operands(rw)
      requires n in visited && Defined(e, n.0, n.1)
      requires mode.PrunedEdges? ==> forall k :: k in e.relations ==> Operands(e.relations[k].rewrite)
      modifies this`visited
      ensures old(visited) <= visited
      ensures (forall m :: m in Next(e, mode, n, rw) ==> Defined(e, m.0, m.1)) && Resolvable(e, mode) ==> ok
      ensures ok ==> Grows(e, mode, old(visited), visited, Next(e, mode, n, rw))
      ensures ok ==> forall x ::
          Times(found, x) == Local(e, source, mode, n, rw, x) + NewlyExpanded(e, source, mode, old(visited), visited, x)
      ensures Sound(n, rw, found)
      ensures ok ==> Fair(n, rw, OperatorCount(rw), old(visited), visited, found)
      ensures ok ==> FlagsFirst(n, rw, old(visited), found)
      decreases e.relations.Keys - visited, 3, rw, 0
    {
      found, ok := WithRewrite(n, rw.base);
      if !ok {
        return [], false;
      }
      FlagKeepsTimes(found);
      if mode.PrunedEdges? {
        FairAll(n, rw.base, rw, old(visited), visited, found);
        found := Flag(found);
        return;
      }
      FairFirst(n, rw.base, rw, OperatorCount(rw.base), old(visited), visited, found);
      YieldsSome(n, rw.base, old(visited), visited, found);
      found := FlagFirst(found);
      found, ok := Join(n, rw, rw.subtract, found, Next(e, mode, n, rw.base), old(visited), OperatorCount(rw.base) + 1);
    }
  }

  lemma FlagKeepsTimes(found: seq<Found>)
    ensures forall x :: Times(Flag(found), x) == Times(found, x) && Times(FlagFirst(found), x) == Times(found, x)
  {
    forall x ensures Times(Flag(found), x) == Times(found, x) && Times(FlagFirst(found), x) == Times(found, x) {
      TimesSame(Flag(found), found, x);
      TimesSame(FlagFirst(found), found, x);
    }
  }

  lemma ExpandedOnce(e: Env, source: Ref, mode: Mode, was: set<Node>, now: set<Node>, n: Node, found: seq<Found>)
    requires n !in was && n in now && Defined(e, n.0, n.1)
    requires forall x ::
        Times(found, x) ==
        Local(e, source, mode, n, RewriteOf(e, n.0, n.1), x) + NewlyExpanded(e, source, mode, was + {n}, now, x)
    ensures forall x :: Times(found, x) == NewlyExpanded(e, source, mode, was, now, x)
  {
    forall x ensures Times(found, x) == NewlyExpanded(e, source, mode, was, now, x) {
      LocalTarget(e, source, mode, n, RewriteOf(e, n.0, n.1), x);
    }
  }

  /** A rewrite contributes edges into its own relation only. */
  lemma {:induction false} LocalTarget(e: Env, source: Ref, mode: Mode, n: Node, rw: Rewrite, x: Edge)
    ensures Local(e, source, mode, n, rw, x) > 0 ==> x.target == n
    decreases rw, 1
  {
    match rw
    case Union(cs) => LocalSumTarget(e, source, mode, n, rw, cs, x);
    case Intersection(cs) =>
      LocalSumTarget(e, source, mode, n, rw, cs, x);
      if cs != [] { LocalTarget(e, source, mode, n, cs[0], x); }
    case Difference(b, s) =>
      LocalTarget(e, source, mode, n, b, x);
      LocalTarget(e, source, mode, n, s, x);
    case _ =>
  }

  lemma {:induction false} LocalSumTarget(e: Env, source: Ref, mode: Mode, n: Node, rw: Rewrite, cs: seq<Rewrite>,
                                          x: Edge)
    requires forall i :: 0 <= i < |cs| ==> cs[i] < rw
    ensures LocalSum(e, source, mode, n, cs, x) > 0 ==> x.target == n
    decreases rw, 0, |cs|
  {
    if cs != [] {
      LocalSumTarget(e, source, mode, n, rw, cs[..|cs| - 1], x);
      LocalTarget(e, source, mode, n, cs[|cs| - 1], x);
    }
  }

  // ----- the two public searches

  /** The edges of every relation reachable from the target, each relation expanded once. */
  method CollectEdges(e: Env, source: Ref, mode: Mode, involves: Node -> bool, target: Node)
    returns (found: seq<Found>, ok: bool)
    requires mode.PrunedEdges? ==> forall k :: k in e.relations ==> Operands(e.relations[k].rewrite)
    ensures Defined(e, target.0, target.1) && Resolvable(e, mode) ==> ok
    ensures ok ==> Defined(e, target.0, target.1)
    ensures ok ==> forall x :: Times(found, x) == Owed(e, source, mode, target, x)
    ensures mode.PrunedEdges? ==> forall i :: 0 <= i < |found| && !found[i].flagged ==>
            CleanFrom(e, source, target, found[i].edge)
    ensures ok ==> forall i :: 0 <= i < |found| && IsInvolved(source, involves, found[i].edge) ==> found[i].flagged
    ensures ok ==> forall i :: 0 <= i < |found| && found[i].flagged && !IsInvolved(source, involves, found[i].edge) ==>
              MarkedFrom(e, source, mode, target, found[i].edge)
    ensures ok && mode.AllEdges? ==>
              exists nodes: set<Node> ::
                && (forall m :: m in nodes <==> Reachable(e, mode, target, m))
                && Extra(source, involves, found) <= |OperatorsOf(e, nodes)|
    ensures ok && mode.AllEdges? && found != [] && RewriteOf(e, target.0, target.1).Intersection? ==> found[0].flagged
    ensures ok && (forall k :: k in e.relations ==> OperatorCount(e.relations[k].rewrite) == 0) &&
            !(source.UsersetRef? && involves((source.typ, source.relation))) ==>
              forall i :: 0 <= i < |found| ==> !found[i].flagged
  {
    var search := new Search(e, source, mode, involves);
    found, ok := search.GetRelationshipEdges(target);
    if ok {
      ExpandedAll(e, mode, search.visited, target);
      assert search.visited - {} == search.visited;
    }
    if forall k :: k in e.relations ==> OperatorCount(e.relations[k].rewrite) == 0 {
      forall x ensures !MarkedFrom(e, source, mode, target, x) {
        NothingMarked(e, source, mode, target, x);
      }
    }
  }

  // ----- pruning

  lemma {:induction false} PrunedNext(e: Env, n: Node, rw: Rewrite)
    ensures Next(e, PrunedEdges, n, rw) <= Next(e, AllEdges, n, rw)
    decreases rw, 1
  {
    match rw
    case Union(cs) => PrunedNextOfAll(e, n, rw, cs);
    case Intersection(cs) =>
      if cs != [] {
        PrunedNext(e, n, cs[0]);
        OperandNext(e, AllEdges, n, cs, 0);
      }
    case Difference(b, _) => PrunedNext(e, n, b);
    case _ =>
  }

  lemma {:induction false} PrunedNextOfAll(e: Env, n: Node, rw: Rewrite, cs: seq<Rewrite>)
    requires forall i :: 0 <= i < |cs| ==> cs[i] < rw
    ensures NextOfAll(e, PrunedEdges, n, cs) <= NextOfAll(e, AllEdges, n, cs)
    decreases rw, 0, |cs|
  {
    if cs != [] {
      PrunedNextOfAll(e, n, rw, cs[..|cs| - 1]);
      PrunedNext(e, n, cs[|cs| - 1]);
    }
  }

  lemma {:induction false} PrunedLocal(e: Env, source: Ref, n: Node, rw: Rewrite, x: Edge)
    ensures Local(e, source, PrunedEdges, n, rw, x) <= Local(e, source, AllEdges, n, rw, x)
    decreases rw, 1
  {
    match rw
    case Union(cs) => PrunedLocalSum(e, source, n, rw, cs, x);
    case Intersection(cs) =>
      if cs != [] {
        PrunedLocal(e, source, n, cs[0], x);
        LocalIsInSum(e, source, AllEdges, n, cs, 0, x);
      }
    case Difference(b, _) => PrunedLocal(e, source, n, b, x);
    case _ =>
  }

  lemma {:induction false} PrunedLocalSum(e: Env, source: Ref, n: Node, rw: Rewrite, cs: seq<Rewrite>, x: Edge)
    requires forall i :: 0 <= i < |cs| ==> cs[i] < rw
    ensures LocalSum(e, source, PrunedEdges, n, cs, x) <= LocalSum(e, source, AllEdges, n, cs, x)
    decreases rw, 0, |cs|
  {
    if cs != [] {
      PrunedLocalSum(e, source, n, rw, cs[..|cs| - 1], x);
      PrunedLocal(e, source, n, cs[|cs| - 1], x);
    }
  }

  lemma {:induction false} LocalIsInSum(e: Env, source: Ref, mode: Mode, n: Node, cs: seq<Rewrite>, i: nat, x: Edge)
    requires i < |cs|
    ensures Local(e, source, mode, n, cs[i], x) <= LocalSum(e, source, mode, n, cs, x)
    decreases |cs|
  {
    if i < |cs| - 1 {
      LocalIsInSum(e, source, mode, n, cs[..|cs| - 1], i, x);
    }
  }

  /** Pruning returns some of the edges that the full search returns, as often or less. */
  lemma PrunedIsPartOfAll(e: Env, source: Ref, target: Node, x: Edge)
    ensures Owed(e, source, PrunedEdges, target, x) <= Owed(e, source, AllEdges, target, x)
  {
    if Reachable(e, PrunedEdges, target, x.target) {
      var path: seq<Node> :| Joins(e, PrunedEdges, path, target, x.target);
      forall i | 0 <= i < |path| - 1 ensures path[i + 1] in Neighbours(e, AllEdges, path[i]) {
        assert path[i + 1] in Neighbours(e, PrunedEdges, path[i]);
        PrunedNext(e, path[i], RewriteOf(e, path[i].0, path[i].1));
      }
      assert Joins(e, AllEdges, path, target, x.target);
      if Defined(e, x.target.0, x.target.1) {
        PrunedLocal(e, source, x.target, RewriteOf(e, x.target.0, x.target.1), x);
      }
    }
  }

  function NodeOf(g: Goal): Node { (g.obj.typ, g.relation) }

  /** Pruning loses nothing: if any object of the target type has the target relation for a user of the
      source type, some edge is found, whatever the intersections and exclusions on the way. */
  lemma PruningLosesNothing(e: Env, n: nat, g: Goal)
    requires ValidTuples(e) && Holds(e, n, g) && !SelfDefining(g)
    ensures exists x :: Owed(e, RefOf(g.user), PrunedEdges, NodeOf(g), x) > 0
  {
    var path, x := Trace(e, n, g);
    assert Owed(e, RefOf(g.user), PrunedEdges, NodeOf(g), x) > 0;
  }

  /** Follows a derivation down to an edge that ends at the user. */
  lemma {:induction false} Trace(e: Env, n: nat, g: Goal) returns (path: seq<Node>, x: Edge)
    requires ValidTuples(e) && Holds(e, n, g) && !SelfDefining(g)
    ensures Joins(e, PrunedEdges, path, NodeOf(g), x.target) && Expanded(e, RefOf(g.user), PrunedEdges, x) > 0
    decreases n
  {
    var rw := RewriteOf(e, g.obj.typ, g.relation);
    var k, here;
    here, x, k := TraceRw(e, n - 1, g, rw);
    if here {
      LocalTarget(e, RefOf(g.user), PrunedEdges, NodeOf(g), rw, x);
      path := [NodeOf(g)];
    } else {
      path, x := Trace(e, n - 1, k);
      JoinsFurther(e, PrunedEdges, path, NodeOf(g), NodeOf(k), x.target);
      path := [NodeOf(g)] + path;
    }
  }

  /** Some operand that pruning keeps either names the user or leads to a shorter derivation. */
  lemma {:induction false} TraceRw(e: Env, n: nat, g: Goal, rw: Rewrite) returns (here: bool, x: Edge, k: Goal)
    requires ValidTuples(e) && HoldsRw(e, n, g, rw)
    ensures here ==> Local(e, RefOf(g.user), PrunedEdges, NodeOf(g), rw, x) > 0
    ensures !here ==>
            k.user == g.user && Holds(e, n, k) && !SelfDefining(k) && NodeOf(k) in Next(e, PrunedEdges, NodeOf(g), rw)
    decreases rw
  {
    var node, source := NodeOf(g), RefOf(g.user);
    here, k := true, g;
    match rw
    case This =>
      x := Edge(DirectEdge, node, NO_TUPLESET);
      if !Direct(e, g) {
        k :| k in AllUsersets(e, g) && Holds(e, n, k);
        here := SelfDefining(k);
      } else {
        DirectIsRelated(e, g);
      }
    case Computed(c) =>
      x := Edge(ComputedUsersetEdge, node, NO_TUPLESET);
      k := Goal(g.obj, c, g.user);
      here := SelfDefining(k);
    case TupleToUserset(ts, c) =>
      x := Edge(TupleToUsersetEdge, node, ts);
      k :| k in TtuGoals(e, g, ts, c) && Holds(e, n, k);
      var i: nat :| i < |Restrictions(e, g.obj.typ, ts)| && Restrictions(e, g.obj.typ, ts)[i] == TypeRef(k.obj.typ);
      here := SelfDefining(k);
      if here {
        TtuMatchesGrows(e, source, Restrictions(e, g.obj.typ, ts), i + 1, c);
        assert Restrictions(e, g.obj.typ, ts)[..i + 1][i] == TypeRef(k.obj.typ);
      }
    case Union(cs) =>
      var i :| 0 <= i < |cs| && HoldsRw(e, n, g, cs[i]);
      here, x, k := TraceRw(e, n, g, cs[i]);
      LocalIsInSum(e, source, PrunedEdges, node, cs, i, x);
      OperandNext(e, PrunedEdges, node, cs, i);
    case Intersection(cs) => here, x, k := TraceRw(e, n, g, cs[0]);
    case Difference(b, _) => here, x, k := TraceRw(e, n, g, b);
  }

  lemma DirectIsRelated(e: Env, g: Goal)
    requires ValidTuples(e) && Direct(e, g)
    ensures DirectlyRelated(e, RefOf(g.user), NodeOf(g))
  {
    if Public(e, g) {
      assert RefOf(Wildcard(g.user.obj.typ)) in Restrictions(e, g.obj.typ, g.relation);
    }
  }

  ghost predicate HasEdge(e: Env, source: Ref, target: Node) {
    exists x :: Owed(e, source, PrunedEdges, target, x) > 0
  }

  /** Every object has any of its relations for itself as a userset, and no edge need say so.  That is the
      only exception: whenever an object has the target relation for a user of the source kind there is an
      edge, if and only if the source is not the target as a userset, or there is an edge anyway. */
  lemma EveryTrueGoalHasAnEdgeIff(e: Env, source: Ref, target: Node)
    requires ValidTuples(e)
    ensures (forall g :: IsTrue(e, g) && RefOf(g.user) == source && NodeOf(g) == target ==>
            HasEdge(e, source, target)) <==>
            (source != UsersetRef(target.0, target.1) || HasEdge(e, source, target))
  {
    forall g | IsTrue(e, g) && RefOf(g.user) == source && NodeOf(g) == target &&
        source != UsersetRef(target.0, target.1)
      ensures HasEdge(e, source, target)
    {
      var n: nat :| Holds(e, n, g);
      PruningLosesNothing(e, n, g);
    }
    if source == UsersetRef(target.0, target.1) {
      var own := Goal(Object(target.0, 1), target.1, Userset(Object(target.0, 1), target.1));
      assert Holds(e, 1, own);
      assert IsTrue(e, own) && RefOf(own.user) == source && NodeOf(own) == target;
    }
  }

  /** The exception: every object has any of its relations for itself as a userset, and no edge need
      say so. */
  lemma SelfDefiningNeedsNoEdge()
    ensures var doc, viewer := TypeName("document"), RelationName("viewer");
            var e := Env(map[(doc, viewer) := RelationDef(This, [TypeRef(TypeName("user"))])], {}, {});
            var g := Goal(Object(doc, 1), viewer, Userset(Object(doc, 1), viewer));
            IsTrue(e, g) && forall x :: Owed(e, RefOf(g.user), PrunedEdges, NodeOf(g), x) == 0
  {
    var doc, viewer := TypeName("document"), RelationName("viewer");
    var e := Env(map[(doc, viewer) := RelationDef(This, [TypeRef(TypeName("user"))])], {}, {});
    var g := Goal(Object(doc, 1), viewer, Userset(Object(doc, 1), viewer));
    assert Holds(e, 1, g);
    forall x ensures Owed(e, RefOf(g.user), PrunedEdges, NodeOf(g), x) == 0 {
      assert Defined(e, x.target.0, x.target.1) ==> x.target == NodeOf(g);
    }
  }
}
