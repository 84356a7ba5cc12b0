/** The statistics the planner keeps per strategy (thompson.go): a normal-gamma posterior that
    concurrent goroutines update by compare-and-swap.  Arithmetic is over exact reals. */
module Thompson {

  datatype Params = Params(mu: real, lambda: real, alpha: real, beta: real)

  /** The posterior after one more observation, as Update computes it. */
  function Observe(p: Params, x: real): Params
    requires p.lambda >= 0.0
  {
    var newLambda := p.lambda + 1.0;
    var newMu := (p.lambda * p.mu + x) / newLambda;
    var newAlpha := p.alpha + 0.5;
    var diff := x - p.mu;
    var newBeta := p.beta + (p.lambda * diff * diff) / (2.0 * newLambda);
    Params(newMu, newLambda, newAlpha, newBeta)
  }

  /** The posterior after observations in the order of their commits. */
  ghost function Posterior(prior: Params, xs: seq<real>): (p: Params)
    requires prior.lambda >= 0.0
    ensures p.lambda >= 0.0
  {
    if xs == [] then prior else Observe(Posterior(prior, xs[..|xs| - 1]), xs[|xs| - 1])
  }

  ghost function Total(f: real -> real, xs: seq<real>): real {
    if xs == [] then 0.0 else Total(f, xs[..|xs| - 1]) + f(xs[|xs| - 1])
  }

  function Itself(x: real): real { x }

  function Square(x: real): real { x * x }

  ghost function Sum(xs: seq<real>): real { Total(Itself, xs) }

  ghost function SumOfSquares(xs: seq<real>): real { Total(Square, xs) }

  // ----- the closed form

  /** What the posterior is, given only the number, the sum and the sum of squares of the samples. */
  ghost predicate IsClosedForm(prior: Params, p: Params, n: nat, sum: real, squares: real) {
    && p.lambda == prior.lambda + n as real
    && p.lambda * p.mu == prior.lambda * prior.mu + sum
    && p.alpha == prior.alpha + n as real / 2.0
    && p.beta == prior.beta + (prior.lambda * (prior.mu * prior.mu) + squares - p.lambda * (p.mu * p.mu)) / 2.0
  }

  lemma {:induction false} ClosedForm(prior: Params, xs: seq<real>)
    requires prior.lambda >= 0.0
    ensures IsClosedForm(prior, Posterior(prior, xs), |xs|, Sum(xs), SumOfSquares(xs))
  {
    if xs != [] {
      var before, x := xs[..|xs| - 1], xs[|xs| - 1];
      ClosedForm(prior, before);
      ClosedFormStep(prior, Posterior(prior, before), x, |before|, Sum(before), SumOfSquares(before));
    }
  }

  lemma ClosedFormStep(prior: Params, p: Params, x: real, n: nat, sum: real, squares: real)
    requires p.lambda >= 0.0 && IsClosedForm(prior, p, n, sum, squares)
    ensures IsClosedForm(prior, Observe(p, x), n + 1, sum + x, squares + Square(x))
  {
    var q := Observe(p, x);
    MeanMoves(p.lambda, p.mu, x, q.mu);
    SpreadGrows(p.lambda, p.mu, x, q.mu);
    assert q.beta - p.beta == (p.lambda * (p.mu * p.mu) + x * x - q.lambda * (q.mu * q.mu)) / 2.0;
  }

  lemma MeanMoves(l: real, m: real, x: real, m': real)
    requires l >= 0.0 && m' == (l * m + x) / (l + 1.0)
    ensures (l + 1.0) * m' == l * m + x
  {}

  /** The squared deviation of a sample is what it adds to the squares around the moving mean. */
  lemma SpreadGrows(l: real, m: real, x: real, m': real)
    requires l >= 0.0 && (l + 1.0) * m' == l * m + x
    ensures (l * (x - m) * (x - m)) / (2.0 * (l + 1.0)) == (l * (m * m) + x * x - (l + 1.0) * (m' * m')) / 2.0
  {
    var n := l + 1.0;
    var d := l * (m * m) + x * x - n * (m' * m');
    var total := l * m + x;
    assert n * (n * (m' * m')) == total * total by {
      assert n * (n * (m' * m')) == (n * m') * (n * m');
    }
    assert total * total == l * l * (m * m) + 2.0 * (l * m * x) + x * x;
    assert n * d == n * (l * (m * m)) + n * (x * x) - total * total;
    assert n * (l * (m * m)) == l * l * (m * m) + l * (m * m);
    assert l * (x - m) * (x - m) == l * (x * x) - 2.0 * (l * m * x) + l * (m * m);
    assert n * d == l * (x - m) * (x - m);
    DivideOut(n, d, l * (x - m) * (x - m));
  }

  lemma DivideOut(n: real, d: real, v: real)
    requires n > 0.0 && n * d == v
    ensures v / (2.0 * n) == d / 2.0
  {
    assert v == (2.0 * n) * (d / 2.0);
  }

  // ----- order of commits

  lemma {:induction false} TotalOfRest(f: real -> real, xs: seq<real>, i: nat)
    requires i < |xs|
    ensures Total(f, xs) == Total(f, xs[..i] + xs[i + 1..]) + f(xs[i])
    decreases |xs|
  {
    var last := |xs| - 1;
    if i < last {
      TotalOfRest(f, xs[..last], i);
      assert (xs[..i] + xs[i + 1..])[..last - 1] == xs[..last][..i] + xs[..last][i + 1..];
    } else {
      assert xs[..i] + xs[i + 1..] == xs[..last];
    }
  }

  lemma {:induction false} TotalIgnoresOrder(f: real -> real, xs: seq<real>, ys: seq<real>)
    requires multiset(xs) == multiset(ys)
    ensures Total(f, xs) == Total(f, ys)
    decreases |xs|
  {
    assert |xs| == |multiset(xs)| == |multiset(ys)| == |ys|;
    if xs != [] {
      var last := |xs| - 1;
      assert xs[last] in multiset(ys);
      var i: nat :| i < |ys| && ys[i] == xs[last];
      var rest := ys[..i] + ys[i + 1..];
      TotalOfRest(f, ys, i);
      assert ys == ys[..i] + [ys[i]] + ys[i + 1..];
      assert xs == xs[..last] + [xs[last]];
      assert multiset(rest) + multiset{ys[i]} == multiset(ys) == multiset(xs) == multiset(xs[..last]) +
          multiset{xs[last]};
      assert multiset(rest) == multiset(xs[..last]) + multiset{ys[i]} - multiset{ys[i]};
      TotalIgnoresOrder(f, xs[..last], rest);
    }
  }

  /** The posterior does not depend on the order in which the goroutines commit. */
  lemma OrderOfCommitsIrrelevant(prior: Params, xs: seq<real>, ys: seq<real>)
    requires prior.lambda >= 0.0 && multiset(xs) == multiset(ys)
    ensures Posterior(prior, xs) == Posterior(prior, ys)
  {
    assert |xs| == |multiset(xs)| == |multiset(ys)| == |ys|;
    if xs != [] {
      TotalIgnoresOrder(Itself, xs, ys);
      TotalIgnoresOrder(Square, xs, ys);
      ClosedForm(prior, xs);
      ClosedForm(prior, ys);
      ClosedFormDetermines(prior, Posterior(prior, xs), Posterior(prior, ys), |xs|, Sum(xs), SumOfSquares(xs));
    }
  }

  lemma ClosedFormDetermines(prior: Params, p: Params, q: Params, n: nat, sum: real, squares: real)
    requires prior.lambda >= 0.0 && n > 0
    requires IsClosedForm(prior, p, n, sum, squares) && IsClosedForm(prior, q, n, sum, squares)
    ensures p == q
  {
    SameMean(p.lambda, p.mu, q.mu);
  }

  lemma SameMean(l: real, a: real, b: real)
    requires l > 0.0 && l * a == l * b
    ensures a == b
  {
    assert l * (a - b) == 0.0;
  }

  /** An observation never makes the belief about the variance more optimistic. */
  lemma BetaNeverDecreases(p: Params, x: real)
    requires p.lambda >= 0.0
    ensures Observe(p, x).beta >= p.beta
  {
    var diff := x - p.mu;
    assert diff * diff >= 0.0;
    NonNegativeQuotient(p.lambda * diff * diff, 2.0 * (p.lambda + 1.0), p.lambda, diff * diff);
  }

  lemma NonNegativeQuotient(v: real, w: real, l: real, s: real)
    requires w > 0.0 && l >= 0.0 && s >= 0.0 && v == l * s
    ensures v / w >= 0.0
  {}

  // ----- concurrent updates

  class ThompsonStats {
    var params: Params
    /** The identity of the current snapshot, which a swap replaces. */
    var version: nat
    /** What other goroutines will have committed, in the order of their commits. */
    var others: seq<real>
    ghost const prior: Params
    ghost var committed: seq<real>

    ghost predicate Valid()
      reads this
    {
      prior.lambda >= 0.0 && params == Posterior(prior, committed)
    }

    constructor (initialGuess: int, lambda: real, alpha: real, beta: real, others: seq<real>)
      requires lambda >= 0.0
      ensures Valid() && committed == [] && this.others == others
      ensures prior == Params(Millis(initialGuess), lambda, alpha, beta)
    {
      params, prior := Params(Millis(initialGuess), lambda, alpha, beta),
          Params(Millis(initialGuess), lambda, alpha, beta);
      version, committed, this.others := 0, [], others;
    }

    /** Other goroutines succeed with some of their updates. */
    method Suspend()
      requires Valid()
      modifies this`params, this`version, this`others, this`committed
      ensures Valid() && |others| <= |old(others)|
      ensures committed == old(committed) + old(others)[..|old(others)| - |others|]
      ensures others == old(others)[|old(others)| - |others|..]
      ensures version - old(version) == |old(others)| - |others|
      ensures version == old(version) ==> params == old(params)
    {
      var resumes := *;
      while others != [] && !resumes
        invariant Valid() && |others| <= |old(others)|
        invariant committed == old(committed) + old(others)[..|old(others)| - |others|]
        invariant others == old(others)[|old(others)| - |others|..]
        invariant version - old(version) == |old(others)| - |others|
        invariant version == old(version) ==> params == old(params)
        decreases |others|
      {
        Commit(Observe(params, others[0]), others[0]);
        others := others[1..];
        resumes := *;
      }
    }

    /** A successful swap installs a new snapshot. */
    method Commit(newParams: Params, ghost x: real)
      requires Valid() && newParams == Observe(params, x)
      modifies this`params, this`version, this`committed
      ensures Valid() && params == newParams && version == old(version) + 1 && committed == old(committed) + [x]
    {
      params, version := newParams, version + 1;
      committed := committed + [x];
      assert committed[..|committed| - 1] == old(committed);
    }

    /** Retries until no other update has come between; its sample, and those of the others, are all
        counted exactly once. */
    method Update(duration: int)
      requires Valid()
      modifies this`params, this`version, this`others, this`committed
      ensures Valid()
      ensures multiset(committed) + multiset(others) == multiset(old(committed)) + multiset(old(others)) +
              multiset{Millis(duration)}
      ensures params.beta >= old(params).beta
    {
      var x := Millis(duration);
      while true
        invariant Valid()
        invariant multiset(committed) + multiset(others) == multiset(old(committed)) + multiset(old(others))
        invariant params.beta >= old(params).beta
        decreases |others|
      {
        var oldVersion, currentParams := version, params;
        var newParams := Observe(currentParams, x);
        Resume();
        if version == oldVersion {
          BetaNeverDecreases(params, x);
          Commit(newParams, x);
          return;
        }
      }
    }

    /** Suspend, and what it means for the samples and for beta. */
    method Resume()
      requires Valid()
      modifies this`params, this`version, this`others, this`committed
      ensures Valid() && params.beta >= old(params).beta
      ensures multiset(committed) + multiset(others) == multiset(old(committed)) + multiset(old(others))
      ensures if version == old(version) then params == old(params) &&
              others == old(others) else |others| < |old(others)|
    {
      Suspend();
      var k := |old(others)| - |others|;
      assert old(others) == old(others)[..k] + old(others)[k..];
      BetaGrows(prior, old(committed), old(others)[..k]);
    }
  }

  /** A millisecond has a million nanoseconds. */
  function Millis(nanoseconds: int): (ms: real)
    ensures ms * 1000000.0 == nanoseconds as real
  {
    nanoseconds as real / 1000000.0
  }

  lemma {:induction false} BetaGrows(prior: Params, before: seq<real>, more: seq<real>)
    requires prior.lambda >= 0.0
    ensures Posterior(prior, before + more).beta >= Posterior(prior, before).beta
  {
    if more == [] {
      assert before + more == before;
    } else {
      var last := |more| - 1;
      assert (before + more)[..|before + more| - 1] == before + more[..last];
      BetaGrows(prior, before, more[..last]);
      BetaNeverDecreases(Posterior(prior, before + more[..last]), more[last]);
    }
  }
}
