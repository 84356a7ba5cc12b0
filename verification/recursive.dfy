/** The breadth-first strategy for relations that refer to themselves (recursive_resolver.go). */
module Recursive {
  import opened Model
  import opened Semantics
  import opened Reducers
  import opened Claims
  import opened FastPath
  import opened FastPathMeaning
  import opened Weight2
  import S = Streams

  /** How the relation refers to itself: through userset tuples, or through a tupleset. */
  datatype Mapping =
    | ByUserset
    | ByParent(tupleset: RelationName)

  /** One recursive search: relation `r` of type `t`. */
  datatype Search = Search(mapping: Mapping, t: TypeName, r: RelationName)

  /** The type restrictions that the search follows. */
  function Refs(e: Env, s: Search): seq<Ref> {
    match s.mapping
    case ByUserset => UsersetRefs(Restrictions(e, s.t, s.r))
    case ByParent(ts) => Restrictions(e, s.t, ts)
  }

  /** The objects the search visits after `o`.  The mapper keeps only the object of a userset, so the
      relation of the userset is forgotten, and so is the type of the parent. */
  function Successors(e: Env, s: Search, o: Object): set<Object> {
    match s.mapping
    case ByUserset =>
      set t | t in e.tuples && t.obj == o && t.relation == s.r && t.subject.Userset? &&
          RefOf(t.subject) in Refs(e, s) ::
        t.subject.obj
    case ByParent(ts) =>
      set t | t in e.tuples && t.obj == o && t.relation == ts && t.subject.User? :: t.subject.obj
  }

  ghost predicate IsWalk(e: Env, s: Search, path: seq<Object>) {
    forall i :: 0 <= i < |path| - 1 ==> path[i + 1] in Successors(e, s, path[i])
  }

  ghost predicate IsClosed(e: Env, s: Search, objs: set<Object>) {
    forall o :: o in objs ==> Successors(e, s, o) <= objs
  }

  /** Every object named on the user side of a tuple. */
  function Named(e: Env): set<Object> {
    set t | t in e.tuples && !t.subject.Wildcard? :: t.subject.obj
  }

  // ----- how deep a search goes

  function NextLevel(e: Env, s: Search, objs: set<Object>): (next: set<Object>)
    ensures forall p :: p in next <==> exists o :: o in objs && p in Successors(e, s, o)
  {
    set o, p | o in objs && p in Successors(e, s, o) :: p
  }

  /** Counting from this level on, a level without objects is met while depth is left.  Objects visited before are
      met again but not followed again. */
  ghost predicate LevelsEnd(e: Env, s: Search, left: nat, level: set<Object>, visited: set<Object>)
    decreases left
  {
    left >= 2 && (level == {} || LevelsEnd(e, s, left - 1, NextLevel(e, s, level - visited), visited + level))
  }

  /** A search from the object ends with the depth that is left. */
  ghost predicate EndsInTime(e: Env, s: Search, left: nat, start: Object) {
    LevelsEnd(e, s, left, Successors(e, s, start), {})
  }

  /** The levels are met in time if the depth exceeds, by two, the number of objects among which they are. */
  lemma {:induction false} FewLevelsEnd(e: Env, s: Search, left: nat, level: set<Object>, visited: set<Object>,
                                        all: set<Object>)
    requires level <= all && forall o :: Successors(e, s, o) <= all
    requires left > |all - visited| + (if level == {} then 1 else 2)
    ensures LevelsEnd(e, s, left, level, visited)
    decreases left
  {
    if level != {} {
      LevelsRunOut(all, visited, level);
      FewLevelsEnd(e, s, left - 1, NextLevel(e, s, level - visited), visited + level, all);
    }
  }

  lemma SuccessorsAreNamed(e: Env, s: Search)
    ensures forall o :: Successors(e, s, o) <= Named(e)
  {}

  /** A search ends in time if the depth exceeds, by two, the number of objects that are named. */
  lemma AmpleSearch(e: Env, left: nat, s: Search, o: Object)
    requires left > |Named(e)| + 2
    ensures EndsInTime(e, s, left, o)
  {
    assert Named(e) - {} == Named(e);
    SuccessorsAreNamed(e, s);
    FewLevelsEnd(e, s, left, Successors(e, s, o), {}, Named(e));
  }

  /** A walk without repetition. */
  ghost predicate IsSimple(path: seq<Object>) {
    forall i, j :: 0 <= i < j < |path| ==> path[i] != path[j]
  }

  /** All walks without repetition from the first level have at most `most` objects. */
  ghost predicate WalksWithin(e: Env, s: Search, first: set<Object>, most: int) {
    forall path :: |path| >= 1 && path[0] in first && IsWalk(e, s, path) && IsSimple(path) ==> |path| <= most
  }

  /** The levels are met in time if no walk without repetition that starts on the first level has more objects than the
      depth less three. */
  lemma ShortWalksEnd(e: Env, s: Search, left: nat, first: set<Object>)
    requires left >= 2 && WalksWithin(e, s, first, left - 3)
    ensures LevelsEnd(e, s, left, first, {})
  {
    forall o | o in first ensures Trailed(e, s, first, {}, 1, o) {
      assert IsTrail(e, s, first, {}, [o]);
    }
    if !LevelsEnd(e, s, left, first, {}) {
      var path := LongWalk(e, s, left, first, 1, first, {});
    }
  }

  /** A walk from the first level without repetition, along visited objects up to its last one. */
  ghost predicate IsTrail(e: Env, s: Search, first: set<Object>, visited: set<Object>, path: seq<Object>) {
    && |path| >= 1 && path[0] in first && IsWalk(e, s, path) && IsSimple(path[..|path| - 1])
    && forall i :: 0 <= i < |path| - 1 ==> path[i] in visited
  }

  ghost predicate Trailed(e: Env, s: Search, first: set<Object>, visited: set<Object>, n: nat, o: Object) {
    exists path :: |path| == n && IsTrail(e, s, first, visited, path) && path[n - 1] == o
  }

  ghost predicate AllTrailed(e: Env, s: Search, first: set<Object>, visited: set<Object>, n: nat, level: set<Object>) {
    forall o :: o in level ==> Trailed(e, s, first, visited, n, o)
  }

  /** If the levels outlast the depth, their trails are that long. */
  lemma {:induction false} LongWalk(e: Env, s: Search, left: nat, first: set<Object>, n: nat, level: set<Object>,
                                    visited: set<Object>)
    returns (path: seq<Object>)
    requires left >= 2 && n >= 1 && AllTrailed(e, s, first, visited, n, level)
    requires !LevelsEnd(e, s, left, level, visited)
    ensures |path| >= 1 && path[0] in first && IsWalk(e, s, path) && IsSimple(path) && |path| > left + n - 4
    decreases left
  {
    if left == 2 {
      path := WalkOf(e, s, first, n, level, visited);
    } else {
      TrailsGrow(e, s, first, n, level, visited);
      path := LongWalk(e, s, left - 1, first, n + 1, NextLevel(e, s, level - visited), visited + level);
    }
  }

  lemma WalkOf(e: Env, s: Search, first: set<Object>, n: nat, level: set<Object>, visited: set<Object>)
    returns (walk: seq<Object>)
    requires n >= 1 && level != {} && AllTrailed(e, s, first, visited, n, level)
    ensures |walk| >= 1 && |walk| >= n - 1 && walk[0] in first && IsWalk(e, s, walk) && IsSimple(walk)
  {
    var o :| o in level;
    var path :| |path| == n && IsTrail(e, s, first, visited, path) && path[n - 1] == o;
    walk := if n == 1 then path else path[..n - 1];
    assert IsSimple(walk);
    assert IsWalk(e, s, walk);
  }

  lemma TrailsGrow(e: Env, s: Search, first: set<Object>, n: nat, level: set<Object>, visited: set<Object>)
    requires n >= 1 && AllTrailed(e, s, first, visited, n, level)
    ensures AllTrailed(e, s, first, visited + level, n + 1, NextLevel(e, s, level - visited))
  {
    forall p | p in NextLevel(e, s, level - visited) ensures Trailed(e, s, first, visited + level, n + 1, p) {
      var o :| o in level - visited && p in Successors(e, s, o);
      TrailGrows(e, s, first, visited, level, n, o, p);
    }
  }

  lemma TrailGrows(e: Env, s: Search, first: set<Object>, visited: set<Object>, level: set<Object>, n: nat, o: Object,
                   p: Object)
    requires Trailed(e, s, first, visited, n, o) && o in level - visited && p in Successors(e, s, o) && n >= 1
    ensures Trailed(e, s, first, visited + level, n + 1, p)
  {
    var path :| |path| == n && IsTrail(e, s, first, visited, path) && path[n - 1] == o;
    var more := path + [p];
    assert more[..n] == path;
    assert IsSimple(path) by {
      forall i, j | 0 <= i < j < n ensures path[i] != path[j] {
        if j < n - 1 {
          assert path[..n - 1][i] != path[..n - 1][j];
        }
      }
    }
    assert IsTrail(e, s, first, visited + level, more) && more[n] == p;
  }

  // ----- the search

  /** `objs` and `users` are what the two producers deliver: the successors of the object, and the
      objects the user reaches without recursion. */
  method RecursiveFastPath(e: Env, s: Search, start: Object, objs: seq<RightMsg>, users: seq<RightMsg>, depth: nat,
                           maxDepth: nat,
                           faulty: bool, ghost fromUser: set<Object>)
    returns (r: Outcome, ghost path: seq<Object>, ghost closed: set<Object>)
    requires depth < maxDepth
    requires forall o :: OnRight(objs, o) ==> o in Successors(e, s, start)
    requires RightClean(objs) ==> forall o :: o in Successors(e, s, start) ==> OnRight(objs, o)
    requires forall o :: OnRight(users, o) ==> o in fromUser
    requires RightClean(users) ==> forall o :: o in fromUser ==> OnRight(users, o)
    ensures r.Answer? ==> !r.cycle
    ensures r.Allowed() ==> |path| >= 2 && path[0] == start && IsWalk(e, s, path) && path[|path| - 1] in fromUser
    ensures r.Answer? && !r.allowed ==>
            Successors(e, s, start) <= closed && IsClosed(e, s, closed) && closed !! fromUser
    ensures r.Answer? && !r.allowed ==> RightClean(users) || closed == {}
    ensures !faulty && RightClean(objs) && RightClean(users) && EndsInTime(e, s, maxDepth - depth, start) ==> r.Answer?
  {
    path, closed := [], {};
    if objs == [] {
      return DENIED, path, closed;
    }
    if objs[0].RightError? {
      return Error, path, closed;
    }
    assert OnRight(objs, objs[0].obj);
    var usersetFromUser, usersetFromObject := {}, {objs[0].obj};
    var nu, no := 0, 1;
    var userDone, objectDone := false, false;
    while !userDone || !objectDone
      invariant 0 <= nu <= |users| && 1 <= no <= |objs|
      invariant forall o :: o in usersetFromUser <==> OnRight(users[..nu], o)
      invariant forall o :: o in usersetFromObject <==> OnRight(objs[..no], o)
      invariant RightClean(users[..nu]) && RightClean(objs[..no])
      invariant usersetFromUser !! usersetFromObject
      invariant usersetFromUser <= fromUser && usersetFromObject <= Successors(e, s, start)
      invariant userDone ==> nu == |users|
      invariant objectDone ==> no == |objs|
      decreases |users| - nu + |objs| - no, (if userDone then 0 else 1) + (if objectDone then 0 else 1)
    {
      var chooseUser := *;
      if !userDone && (chooseUser || objectDone) {
        if nu == |users| {
          userDone := true;
          assert users[..nu] == users;
          if usersetFromUser == {} {
            closed := Named(e);
            return DENIED, path, closed;
          }
        } else {
          var msg := users[nu];
          if msg.RightError? {
            return Error, path, closed;
          }
          assert users[..nu + 1] == users[..nu] + [msg];
          assert OnRight(users, msg.obj);
          usersetFromUser := usersetFromUser + {msg.obj};
          nu := nu + 1;
          if msg.obj in usersetFromObject {
            return Answer(true, false), [start, msg.obj], closed;
          }
        }
      } else {
        if no == |objs| {
          objectDone := true;
        } else {
          var msg := objs[no];
          if msg.RightError? {
            return Error, path, closed;
          }
          assert objs[..no + 1] == objs[..no] + [msg];
          assert OnRight(objs, msg.obj);
          usersetFromObject := usersetFromObject + {msg.obj};
          no := no + 1;
          if msg.obj in usersetFromUser {
            return Answer(true, false), [start, msg.obj], closed;
          }
        }
      }
    }
    assert users[..nu] == users && objs[..no] == objs;
    assert RightClean(objs) && usersetFromObject == Successors(e, s, start);
    r, path, closed := BreadthFirstRecursiveMatch(e, s, usersetFromObject, usersetFromUser, depth, maxDepth, faulty);
    if r.Allowed() {
      ghost var o :| o in usersetFromUser && Leads(e, s, usersetFromObject, path, o);
      path := [start] + path;
    }
  }

  /** Visits the levels one after the other; each level costs one unit of depth.  If nothing is found, the search
      is decided if and only if its levels end in time. */
  method BreadthFirstRecursiveMatch(e: Env, s: Search, first: set<Object>, fromUser: set<Object>, depth0: nat,
                                    maxDepth: nat,
                                   faulty: bool)
    returns (r: Outcome, ghost path: seq<Object>, ghost closed: set<Object>)
    requires depth0 < maxDepth && first !! fromUser
    ensures r.Answer? ==> !r.cycle
    ensures r.Allowed() ==> exists o :: o in fromUser && Leads(e, s, first, path, o)
    ensures r.Answer? && !r.allowed ==> first <= closed && IsClosed(e, s, closed) && closed !! fromUser
    ensures !faulty && !r.Allowed() ==> r == if LevelsEnd(e, s, maxDepth - depth0, first, {}) then DENIED else Error
  {
    path, closed := [], {};
    var depth, level, visited, failed := depth0, first, {}, false;
    forall o | o in first ensures Reached(e, s, first, o) {
      assert Leads(e, s, first, [o], o);
    }
    while true
      invariant depth < maxDepth
      invariant first <= visited + level && (visited + level) !! fromUser
      invariant forall o :: o in level ==> Reached(e, s, first, o)
      invariant !failed ==> Followed(e, s, visited, visited + level)
      invariant !faulty ==> !failed
      invariant !faulty ==>
                (LevelsEnd(e, s, maxDepth - depth, level, visited) <==>
                 LevelsEnd(e, s, maxDepth - depth0, first, {}))
      decreases maxDepth - depth
    {
      depth := depth + 1;
      if depth == maxDepth {
        return Error, path, closed;
      }
      if level == {} {
        closed := visited;
        return if failed then Error else DENIED, path, closed;
      }
      var next, hit, levelFailed := VisitLevel(e, s, level, visited, fromUser, faulty, first);
      if hit {
        ghost var o :| o in fromUser && Reached(e, s, first, o);
        path :| Leads(e, s, first, path, o);
        return Answer(true, false), path, closed;
      }
      if !faulty {
        assert next == NextLevel(e, s, level - visited);
      }
      visited, level, failed := visited + level, next, failed || levelFailed;
    }
  }

  /** `path` is a walk from the first level to `o`. */
  ghost predicate Leads(e: Env, s: Search, first: set<Object>, path: seq<Object>, o: Object) {
    |path| >= 1 && path[0] in first && path[|path| - 1] == o && IsWalk(e, s, path)
  }

  ghost predicate Reached(e: Env, s: Search, first: set<Object>, o: Object) {
    exists path :: Leads(e, s, first, path, o)
  }

  ghost predicate Followed(e: Env, s: Search, objs: set<Object>, within: set<Object>) {
    forall o :: o in objs ==> Successors(e, s, o) <= within
  }

  /** Reads the successors of every object of the level not visited before, in any order. */
  method VisitLevel(e: Env, s: Search, level: set<Object>, visited: set<Object>, fromUser: set<Object>, faulty: bool,
                    ghost first: set<Object>)
    returns (next: set<Object>, hit: bool, failed: bool)
    requires forall o :: o in level ==> Reached(e, s, first, o)
    ensures hit ==> exists o :: o in fromUser && Reached(e, s, first, o)
    ensures forall o :: o in next ==> Reached(e, s, first, o)
    ensures !hit ==> next !! fromUser
    ensures !hit && !failed ==> Followed(e, s, level - visited, next)
    ensures next <= NextLevel(e, s, level - visited) && (!faulty ==> !failed)
  {
    next, hit, failed := {}, false, false;
    var remaining := level - visited;
    while remaining != {}
      invariant remaining <= level - visited && next !! fromUser
      invariant next <= NextLevel(e, s, level - visited) && (!faulty ==> !failed)
      invariant forall o :: o in next ==> Reached(e, s, first, o)
      invariant !failed ==> Followed(e, s, level - visited - remaining, next)
      decreases remaining
    {
      var o :| o in remaining;
      remaining := remaining - {o};
      var found, objFailed;
      found, hit, objFailed := VisitObject(e, s, o, fromUser, faulty, first);
      if hit {
        return;
      }
      next, failed := next + found, failed || objFailed;
    }
  }

  method VisitObject(e: Env, s: Search, o: Object, fromUser: set<Object>, faulty: bool, ghost first: set<Object>)
    returns (found: set<Object>, hit: bool, failed: bool)
    requires Reached(e, s, first, o)
    ensures hit ==> exists p :: p in fromUser && Reached(e, s, first, p)
    ensures forall p :: p in found ==> Reached(e, s, first, p)
    ensures !hit ==> found !! fromUser
    ensures !hit && !failed ==> Successors(e, s, o) <= found
    ensures found <= Successors(e, s, o) && (!faulty ==> !failed)
  {
    var msgs := ProduceRight(Successors(e, s, o), faulty);
    found, hit := {}, false;
    for i := 0 to |msgs|
      invariant found <= Successors(e, s, o) && found !! fromUser && forall p :: p in found ==> Reached(e, s, first, p)
      invariant RightClean(msgs[..i]) && forall p :: OnRight(msgs[..i], p) ==> p in found
    {
      var msg := msgs[i];
      assert msgs[..i + 1] == msgs[..i] + [msg];
      if msg.RightError? {
        failed := true;
        return;
      }
      assert OnRight(msgs, msg.obj);
      ReachedNext(e, s, first, o, msg.obj);
      if msg.obj in fromUser {
        hit, failed := true, false;
        return;
      }
      found := found + {msg.obj};
    }
    assert msgs[..|msgs|] == msgs;
    failed := false;
  }

  /** A level with an unvisited object leaves fewer of them. */
  lemma LevelsRunOut(all: set<Object>, visited: set<Object>, level: set<Object>)
    ensures |all - (visited + level)| <= |all - visited|
    ensures level <= all && !(level <= visited) ==> |all - (visited + level)| < |all - visited|
  {
    var before, after := all - visited, all - (visited + level);
    assert before == after + (before - after);
    if level <= all && !(level <= visited) {
      var o :| o in level && o !in visited;
      assert o in before - after;
    }
  }

  lemma ReachedNext(e: Env, s: Search, first: set<Object>, o: Object, p: Object)
    requires Reached(e, s, first, o) && p in Successors(e, s, o)
    ensures Reached(e, s, first, p)
  {
    var path :| Leads(e, s, first, path, o);
    assert Leads(e, s, first, path + [p], p);
  }
}
