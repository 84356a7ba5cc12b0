/** No handler of any request ever works at the depth limit, however the steps interleave. */
module RingDepth {
  import opened Model
  import opened Reducers
  import opened Handlers
  import opened Ring

  /** No request has gone past the limit, and whatever has handlers at work is below it. */
  ghost predicate WithinLimit(limit: nat, t: Job)
    decreases t
  {
    match t
    case Cached(req) => req.depth <= limit
    case Local(req) => req.depth <= limit
    case Saving(req, inner) => req.depth <= limit && WithinLimit(limit, inner)
    case Handling(req, _) => req.depth < limit
    case Reducing(_, req, _, kids) => req.depth < limit && forall i :: 0 <= i < |kids| ==> WithinLimit(limit, kids[i])
    case Finished(_, _) => true
  }

  ghost predicate AllWithin(limit: nat, ts: seq<Job>) {
    forall i :: 0 <= i < |ts| ==> WithinLimit(limit, ts[i])
  }

  /** At the limit the local checker comes to an error and to nothing else, and leaves the cache as it is. */
  lemma AtTheLimit(k: Config, live: bool, s: Shared, req: Request, s': Shared, t': Job, left: seq<Job>)
    requires Steps(k, live, s, Local(req), s', t', left) && req.depth == k.limit
    ensures t' == Whole(Error) && s' == s && left == []
  {}

  lemma StartIsWithin(limit: nat, op: Operator, req: Request, hs: seq<Handler>)
    requires req.depth < limit
    ensures WithinLimit(limit, Start(op, req, hs))
  {}

  lemma DispatchesWithin(limit: nat, req: Request, goals: set<Goal>, t: Job)
    requires req.depth < limit && DispatchesAll(req, goals, t)
    ensures WithinLimit(limit, t)
  {
    var read, complete :| t == Start(OfDispatches(complete), req, SubProblems(read));
    StartIsWithin(limit, OfDispatches(complete), req, SubProblems(read));
  }

  lemma ExpandsWithin(k: Config, live: bool, req: Request, h: Handler, t: Job)
    requires Expands(k, live, req, h, t) && req.depth < k.limit
    ensures WithinLimit(k.limit, t)
  {
    if goals :| DispatchesAll(req, goals, t) {
      DispatchesWithin(k.limit, req, goals, t);
    } else if op, hs :| t == Start(op, req, hs) {
      StartIsWithin(k.limit, op, req, hs);
    }
  }

  lemma {:induction false} StepStaysWithin(k: Config, live: bool, s: Shared, t: Job, s': Shared, t': Job,
                                           left: seq<Job>)
    requires Steps(k, live, s, t, s', t', left) && WithinLimit(k.limit, t)
    ensures WithinLimit(k.limit, t') && AllWithin(k.limit, left)
    decreases t
  {
    if !(s' == s && t' == Whole(Error) && left == Children(t)) {
      match t
      case Handling(req, h) => ExpandsWithin(k, live, req, h, t');
      case Saving(req, inner) =>
        if !inner.Finished? {
          var inner' :| t' == Saving(req, inner') && Steps(k, live, s, inner, s', inner', left);
          StepStaysWithin(k, live, s, inner, s', inner', left);
        }
      case Reducing(op, req, hs, kids) =>
        if !t'.Finished? {
          var i, kid' :| 0 <= i < |kids| && t' == Reducing(op, req, hs, kids[i := kid']) &&
              Steps(k, live, s, kids[i], s', kid', left);
          StepStaysWithin(k, live, s, kids[i], s', kid', left);
        }
      case _ =>
    }
  }

  ghost predicate StateWithin(limit: nat, s: State) {
    && (forall i :: 0 <= i < |s.roots| ==> WithinLimit(limit, s.roots[i].job))
    && AllWithin(limit, s.strays)
  }

  /** No request arrives with more depth used up than there is. */
  ghost predicate ArrivesWithin(limit: nat, s: State) {
    forall i :: 0 <= i < |s.roots| ==> s.roots[i].req.depth <= limit
  }

  lemma NextStaysWithin(k: Config, s: State, s': State)
    requires Next(k, s, s') && StateWithin(k.limit, s) && ArrivesWithin(k.limit, s')
    ensures StateWithin(k.limit, s')
  {
    if i: nat, t', left :| RootSteps(k, s, s', i, t', left) {
      StepStaysWithin(k, s.roots[i].live, s.shared, s.roots[i].job, s'.shared, t', left);
    } else if i: nat, t', left :| StraySteps(k, s, s', i, t', left) {
      StepStaysWithin(k, false, s.shared, s.strays[i], s'.shared, t', left);
    } else if req :| Arrives(k, s, s', req) {
      assert s'.roots[|s.roots|].req == req;
    }
  }

  /** A request keeps its depth, so it is enough to look at the requests that have arrived by the end. */
  lemma ArrivedBefore(k: Config, s: State, s': State)
    requires Next(k, s, s') && ArrivesWithin(k.limit, s')
    ensures ArrivesWithin(k.limit, s)
  {
    forall i | 0 <= i < |s.roots| ensures s.roots[i].req.depth <= k.limit {
      assert s'.roots[i].req == s.roots[i].req;
    }
  }

  /** In every reachable state, jobs and what they have left behind are within the limit. */
  lemma {:induction false} RunStaysWithin(k: Config, run: seq<State>)
    requires IsRun(k, run) && ArrivesWithin(k.limit, run[|run| - 1])
    ensures StateWithin(k.limit, run[|run| - 1])
    decreases |run|
  {
    if |run| > 1 {
      var n := |run| - 1;
      forall i | 0 <= i < |run[..n]| - 1 ensures Next(k, run[..n][i], run[..n][i + 1]) {
        assert Next(k, run[i], run[i + 1]);
      }
      assert Next(k, run[n - 1], run[n - 1 + 1]);
      ArrivedBefore(k, run[n - 1], run[n]);
      RunStaysWithin(k, run[..n]);
      NextStaysWithin(k, run[n - 1], run[n]);
    }
  }
}
