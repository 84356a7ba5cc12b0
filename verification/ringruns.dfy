/** Runs of the machine put together from runs of single jobs. */
module RingRuns {
  import opened Model
  import opened Reducers
  import opened Handlers
  import opened Check
  import opened Ring

  // ----- runs of one job

  /** Names a job whose step a proof is about to look at. */
  predicate Look(t: Job) { true }

  /** The job takes a step, with nothing else changed.  There are many kinds of steps, so a proof sees them only
      for a job it names. */
  ghost predicate Moves(k: Config, live: bool, s: Shared, t: Job, t': Job) {
    forall u {:trigger Look(u)} :: u == t ==> exists left :: Steps(k, live, s, u, s, t', left)
  }

  /** The job gets to `t'` in `n` steps. */
  ghost predicate Gets(k: Config, live: bool, s: Shared, t: Job, t': Job, n: nat)
    decreases n
  {
    if n == 0 then t' == t
    else exists u :: Moves(k, live, s, t, u) && Gets(k, live, s, u, t', n - 1)
  }

  ghost predicate GetsTo(k: Config, live: bool, s: Shared, t: Job, t': Job) {
    exists n: nat :: Gets(k, live, s, t, t', n)
  }

  lemma OneStep(k: Config, live: bool, s: Shared, t: Job, t': Job, left: seq<Job>)
    requires Steps(k, live, s, t, s, t', left)
    ensures GetsTo(k, live, s, t, t')
  {
    assert Moves(k, live, s, t, t');
    assert Gets(k, live, s, t', t', 0);
    assert Gets(k, live, s, t, t', 1);
  }

  lemma {:induction false} GetsFurther(k: Config, live: bool, s: Shared, t: Job, u: Job, t': Job, m: nat, n: nat)
    requires Gets(k, live, s, t, u, m) && Gets(k, live, s, u, t', n)
    ensures Gets(k, live, s, t, t', m + n)
    decreases m
  {
    if m > 0 {
      var v :| Moves(k, live, s, t, v) && Gets(k, live, s, v, u, m - 1);
      GetsFurther(k, live, s, v, u, t', m - 1, n);
    }
  }

  lemma Then(k: Config, live: bool, s: Shared, t: Job, u: Job, t': Job)
    requires GetsTo(k, live, s, t, u) && GetsTo(k, live, s, u, t')
    ensures GetsTo(k, live, s, t, t')
  {
    var m: nat :| Gets(k, live, s, t, u, m);
    var n: nat :| Gets(k, live, s, u, t', n);
    GetsFurther(k, live, s, t, u, t', m, n);
  }

  lemma {:induction false} KidGets(k: Config, live: bool, s: Shared, t: Job, i: nat, kid: Job, n: nat)
    requires t.Reducing? && i < |t.kids| && Gets(k, live, s, t.kids[i], kid, n)
    ensures Gets(k, live, s, t, t.(kids := t.kids[i := kid]), n)
    decreases n
  {
    if n == 0 {
      assert t.kids[i := t.kids[i]] == t.kids;
    } else {
      var u :| Moves(k, live, s, t.kids[i], u) && Gets(k, live, s, u, kid, n - 1);
      var t1 := t.(kids := t.kids[i := u]);
      KidGets(k, live, s, t1, i, kid, n - 1);
      assert t1.kids[i := kid] == t.kids[i := kid];
      KidMoves(k, live, s, t, i, u);
    }
  }

  lemma KidMoves(k: Config, live: bool, s: Shared, t: Job, i: nat, u: Job)
    requires t.Reducing? && i < |t.kids| && Moves(k, live, s, t.kids[i], u)
    ensures Moves(k, live, s, t, t.(kids := t.kids[i := u]))
  {
    assert Look(t.kids[i]);
    var left :| Steps(k, live, s, t.kids[i], s, u, left);
    assert Steps(k, live, s, t, s, t.(kids := t.kids[i := u]), left);
  }

  /** One handler of a reducer has come further. */
  lemma KidGetsTo(k: Config, live: bool, s: Shared, t: Job, i: nat, kid: Job)
    requires t.Reducing? && i < |t.kids| && GetsTo(k, live, s, t.kids[i], kid)
    ensures GetsTo(k, live, s, t, t.(kids := t.kids[i := kid]))
  {
    var n: nat :| Gets(k, live, s, t.kids[i], kid, n);
    KidGets(k, live, s, t, i, kid, n);
  }

  /** What a request delegates to has come further. */
  lemma {:induction false} InnerGets(k: Config, live: bool, s: Shared, req: Request, inner: Job, inner': Job, n: nat)
    requires Gets(k, live, s, inner, inner', n)
    ensures Gets(k, live, s, Saving(req, inner), Saving(req, inner'), n)
    decreases n
  {
    if n > 0 {
      var u :| Moves(k, live, s, inner, u) && Gets(k, live, s, u, inner', n - 1);
      InnerGets(k, live, s, req, u, inner', n - 1);
      InnerMoves(k, live, s, req, inner, u);
    }
  }

  lemma InnerMoves(k: Config, live: bool, s: Shared, req: Request, inner: Job, u: Job)
    requires Moves(k, live, s, inner, u)
    ensures Moves(k, live, s, Saving(req, inner), Saving(req, u))
  {
    assert Look(inner);
    var left :| Steps(k, live, s, inner, s, u, left);
    assert Steps(k, live, s, Saving(req, inner), s, Saving(req, u), left);
  }

  lemma InnerGetsTo(k: Config, live: bool, s: Shared, req: Request, inner: Job, inner': Job)
    requires GetsTo(k, live, s, inner, inner')
    ensures GetsTo(k, live, s, Saving(req, inner), Saving(req, inner'))
  {
    var n: nat :| Gets(k, live, s, inner, inner', n);
    InnerGets(k, live, s, req, inner, inner', n);
  }

  /** Both handlers of a reducer are through, and it concludes from their outcomes. */
  lemma TwoKids(k: Config, live: bool, s: Shared, t: Job, a: Outcome, b: Outcome, r: Outcome)
    requires t.Reducing? && |t.kids| == 2 && !t.op.OfDispatches? && OperatorResult(t.op, [a, b], r)
    requires GetsTo(k, live, s, t.kids[0], Whole(a)) && GetsTo(k, live, s, t.kids[1], Whole(b))
    ensures GetsTo(k, live, s, t, Whole(r))
  {
    var t2 := BothKids(k, live, s, t, a, b);
    assert Arrived(t2.kids) == [a, b] && Trusted(t2.kids) == [a, b];
    OneStep(k, live, s, t2, Whole(r), t2.kids);
    Then(k, live, s, t, t2, Whole(r));
  }

  lemma BothKids(k: Config, live: bool, s: Shared, t: Job, a: Outcome, b: Outcome) returns (t': Job)
    requires t.Reducing? && |t.kids| == 2
    requires GetsTo(k, live, s, t.kids[0], Whole(a)) && GetsTo(k, live, s, t.kids[1], Whole(b))
    ensures t' == t.(kids := [Whole(a), Whole(b)]) && GetsTo(k, live, s, t, t')
  {
    KidGetsTo(k, live, s, t, 0, Whole(a));
    var t1 := t.(kids := t.kids[0 := Whole(a)]);
    KidGetsTo(k, live, s, t1, 1, Whole(b));
    t' := t1.(kids := t1.kids[1 := Whole(b)]);
    assert t'.kids == [Whole(a), Whole(b)];
    Then(k, live, s, t, t1, t');
  }

  lemma OneKid(k: Config, live: bool, s: Shared, t: Job, a: Outcome, r: Outcome)
    requires t.Reducing? && |t.kids| == 1 && (t.op.OfDispatches? ==> live) && OperatorResult(t.op, [a], r)
    requires GetsTo(k, live, s, t.kids[0], Whole(a))
    ensures GetsTo(k, live, s, t, Whole(r))
  {
    KidGetsTo(k, live, s, t, 0, Whole(a));
    var t1 := t.(kids := t.kids[0 := Whole(a)]);
    assert Arrived(t1.kids) == [a] && Trusted(t1.kids) == [a];
    OneStep(k, live, s, t1, Whole(r), t1.kids);
    Then(k, live, s, t, t1, Whole(r));
  }

  // ----- runs of the machine

  lemma ReachableNext(k: Config, s: State, s': State)
    requires Reachable(k, s) && Next(k, s, s')
    ensures Reachable(k, s')
  {
    var run :| IsRun(k, run) && run[|run| - 1] == s;
    var longer := run + [s'];
    forall i | 0 <= i < |longer| - 1 ensures Next(k, longer[i], longer[i + 1]) {
      if i < |run| - 1 {
        assert Next(k, run[i], run[i + 1]);
      }
    }
    assert IsRun(k, longer) && longer[|longer| - 1] == s';
  }

  /** A request has come further, and nothing else has changed but that jobs were left behind. */
  ghost predicate RootIs(s: State, i: nat, t: Job, s': State) {
    && i < |s.roots| && s'.roots == s.roots[i := s.roots[i].(job := t)]
    && s'.shared == s.shared && s.strays <= s'.strays
  }

  lemma RootMoves(k: Config, s: State, i: nat, u: Job, shared: Shared, left: seq<Job>) returns (s': State)
    requires Reachable(k, s) && i < |s.roots| && Steps(k, s.roots[i].live, s.shared, s.roots[i].job, shared, u, left)
    ensures Reachable(k, s') && s' == State(shared, s.roots[i := s.roots[i].(job := u)], s.strays + left)
  {
    s' := State(shared, s.roots[i := s.roots[i].(job := u)], s.strays + left);
    assert RootSteps(k, s, s', i, u, left);
    ReachableNext(k, s, s');
  }

  /** What the job of a request can get to, the machine can get to. */
  lemma {:induction false} RootGets(k: Config, s: State, i: nat, t': Job, n: nat) returns (s': State)
    requires Reachable(k, s) && i < |s.roots| && Gets(k, s.roots[i].live, s.shared, s.roots[i].job, t', n)
    ensures Reachable(k, s') && RootIs(s, i, t', s')
    decreases n
  {
    s' := s;
    if n > 0 {
      var u :| Moves(k, s.roots[i].live, s.shared, s.roots[i].job, u) &&
          Gets(k, s.roots[i].live, s.shared, u, t', n - 1);
      assert Look(s.roots[i].job);
      var left :| Steps(k, s.roots[i].live, s.shared, s.roots[i].job, s.shared, u, left);
      var next := RootMoves(k, s, i, u, s.shared, left);
      s' := RootGets(k, next, i, t', n - 1);
    }
  }

  lemma RootGetsTo(k: Config, s: State, i: nat, t': Job) returns (s': State)
    requires Reachable(k, s) && i < |s.roots| && GetsTo(k, s.roots[i].live, s.shared, s.roots[i].job, t')
    ensures Reachable(k, s') && RootIs(s, i, t', s')
  {
    var n: nat :| Gets(k, s.roots[i].live, s.shared, s.roots[i].job, t', n);
    s' := RootGets(k, s, i, t', n);
  }

  lemma StrayMoves(k: Config, s: State, i: nat, u: Job, shared: Shared, left: seq<Job>) returns (s': State)
    requires Reachable(k, s) && i < |s.strays| && Steps(k, false, s.shared, s.strays[i], shared, u, left)
    ensures Reachable(k, s') && s'.roots == s.roots && s'.shared == shared
    ensures i < |s'.strays| && s'.strays[i] == u
  {
    s' := State(shared, s.roots, s.strays[i := u] + left);
    assert StraySteps(k, s, s', i, u, left);
    ReachableNext(k, s, s');
  }

  /** So it is for jobs that nobody waits for. */
  lemma {:induction false} StrayGets(k: Config, s: State, i: nat, t': Job, n: nat) returns (s': State)
    requires Reachable(k, s) && i < |s.strays| && Gets(k, false, s.shared, s.strays[i], t', n)
    ensures Reachable(k, s') && s'.roots == s.roots && s'.shared == s.shared
    ensures i < |s'.strays| && s'.strays[i] == t'
    decreases n
  {
    s' := s;
    if n > 0 {
      var u :| Moves(k, false, s.shared, s.strays[i], u) && Gets(k, false, s.shared, u, t', n - 1);
      assert Look(s.strays[i]);
      var left :| Steps(k, false, s.shared, s.strays[i], s.shared, u, left);
      var next := StrayMoves(k, s, i, u, s.shared, left);
      s' := StrayGets(k, next, i, t', n - 1);
    }
  }

  lemma StrayGetsTo(k: Config, s: State, i: nat, t': Job) returns (s': State)
    requires Reachable(k, s) && i < |s.strays| && GetsTo(k, false, s.shared, s.strays[i], t')
    ensures Reachable(k, s') && s'.roots == s.roots && s'.shared == s.shared
    ensures i < |s'.strays| && s'.strays[i] == t'
  {
    var n: nat :| Gets(k, false, s.shared, s.strays[i], t', n);
    s' := StrayGets(k, s, i, t', n);
  }

  /** A request arrives. */
  lemma ArrivesNext(k: Config, s: State, req: Request, t: Job) returns (s': State)
    requires Reachable(k, s) && Fresh(k, req) && (t == Local(req) || t == Cached(req))
    ensures Reachable(k, s') && s' == s.(roots := s.roots + [Root(req, t, true)])
  {
    s' := s.(roots := s.roots + [Root(req, t, true)]);
    assert Arrives(k, s, s', req);
    ReachableNext(k, s, s');
  }

  /** The state in which nothing has happened yet. */
  lemma StartIsReachable(k: Config) returns (s: State)
    ensures Reachable(k, s) && s == State(Shared(map[], k.changed + 1), [], [])
  {
    s := State(Shared(map[], k.changed + 1), [], []);
    assert IsRun(k, [s]) && [s][0] == s;
  }
}
