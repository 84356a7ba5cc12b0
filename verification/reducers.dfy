/** The loops of check.go that combine the outcomes of concurrent handlers, and what they promise.

    Every handler is started at once and its outcome arrives on a channel; the argument `arrivals` is the
    order in which one run delivers them.  Once the context of a reducer has ended (`live` is false), any
    outcome may get lost on its way. */
module Reducers {
  import opened Options

  datatype Outcome =
    | Error
    | Answer(allowed: bool, cycle: bool)
  {
    predicate Allowed() { Answer? && allowed }

    predicate Cyclic() { Answer? && cycle }

    /** An outcome that settles an intersection, or the base of an exclusion, as denied. */
    predicate StopsBase() { Answer? && (cycle || !allowed) }

    /** An outcome that settles the subtracted side of an exclusion as denied. */
    predicate StopsSubtract() { Answer? && (cycle || allowed) }
  }

  const DENIED := Answer(false, false)

  // ----- what the four reducers return

  ghost predicate UnionResult(outs: seq<Outcome>, r: Outcome) {
    if exists i :: 0 <= i < |outs| && outs[i].Allowed() then
      r.Allowed() && r in outs
    else if Error in outs then
      r == Error
    else
      r.Answer? && !r.allowed && (r.cycle <==> exists i :: 0 <= i < |outs| && outs[i].Cyclic())
  }

  ghost predicate IntersectionResult(outs: seq<Outcome>, r: Outcome) {
    if |outs| < 2 then r == Error else AllAllowedResult(outs, r)
  }

  /** What the loop of an intersection makes of the outcomes it receives. */
  ghost predicate AllAllowedResult(outs: seq<Outcome>, r: Outcome) {
    if exists i :: 0 <= i < |outs| && outs[i].StopsBase() then
      exists i :: 0 <= i < |outs| && outs[i].StopsBase() && r == Answer(false, outs[i].cycle)
    else if Error in outs then
      r == Error
    else
      r == Answer(true, false)
  }

  ghost predicate ExclusionResult(base: Outcome, sub: Outcome, r: Outcome) {
    if base.StopsBase() || sub.StopsSubtract() then
      || (base.StopsBase() && r == Answer(false, base.cycle))
      || (sub.StopsSubtract() && r == Answer(false, sub.cycle))
    else if base == Error || sub == Error then
      r == Error
    else
      r == Answer(true, false)
  }

  // ----- the loops

  /** One turn of the loop for every handler.  When all handlers are through the channel is closed, and turns
      that find it closed pass without an outcome. */
  method RunUnion(handlers: nat, arrivals: seq<Outcome>, live: bool) returns (r: Outcome)
    requires |arrivals| <= handlers && (live ==> |arrivals| == handlers)
    ensures UnionResult(arrivals, r) || (!live && r == Error)
  {
    var finalErr, cycle := false, false;
    for i := 0 to handlers
      invariant forall j :: 0 <= j < i && j < |arrivals| ==> !arrivals[j].Allowed()
      invariant finalErr <==> exists j :: 0 <= j < i && j < |arrivals| && arrivals[j] == Error
      invariant cycle <==> exists j :: 0 <= j < i && j < |arrivals| && arrivals[j].Cyclic()
    {
      var done := *;
      if !live && done {
        return Error;
      }
      if i < |arrivals| {
        var outcome := arrivals[i];
        if outcome.Error? {
          finalErr := true;
          continue;
        }
        if outcome.cycle {
          cycle := true;
        }
        if outcome.allowed {
          return outcome;
        }
      }
    }
    r := if finalErr then Error else Answer(false, cycle);
  }

  method RunIntersection(handlers: nat, arrivals: seq<Outcome>, live: bool) returns (r: Outcome)
    requires |arrivals| <= handlers && (live ==> |arrivals| == handlers)
    ensures (if handlers < 2 then r == Error else AllAllowedResult(arrivals, r)) || (!live && r == Error)
  {
    if handlers < 2 {
      return Error;
    }
    var finalErr := false;
    for i := 0 to handlers
      invariant forall j :: 0 <= j < i && j < |arrivals| ==> !arrivals[j].StopsBase()
      invariant finalErr <==> exists j :: 0 <= j < i && j < |arrivals| && arrivals[j] == Error
    {
      var done := *;
      if !live && done {
        return Error;
      }
      if i < |arrivals| {
        var outcome := arrivals[i];
        if outcome.Error? {
          finalErr := true;
          continue;
        }
        if outcome.cycle || !outcome.allowed {
          return Answer(false, outcome.cycle);
        }
      }
    }
    r := if finalErr then Error else Answer(true, false);
  }

  /** An outcome that got lost counts as an error. */
  function Received(o: Option<Outcome>): Outcome {
    match o
    case None => Error
    case Some(out) => out
  }

  /** Waits for both channels; a channel that was closed without an outcome is waited for in vain. */
  method RunExclusion(base: Option<Outcome>, sub: Option<Outcome>, live: bool) returns (r: Outcome)
    requires live ==> base.Some? && sub.Some?
    ensures ExclusionResult(Received(base), Received(sub), r) || (!live && r == Error)
  {
    var baseErr, subErr := false, false;
    var fromBase, fromSub := base, sub;
    var resultsReceived := 0;
    while resultsReceived < 2
      invariant resultsReceived == (if base.Some? && fromBase.None? then 1 else 0) +
                                   (if sub.Some? && fromSub.None? then 1 else 0)
      invariant fromBase == base || (base.Some? && fromBase.None? && !base.value.StopsBase())
      invariant fromSub == sub || (sub.Some? && fromSub.None? && !sub.value.StopsSubtract())
      invariant baseErr <==> base == Some(Error) && fromBase.None?
      invariant subErr <==> sub == Some(Error) && fromSub.None?
      decreases 2 - resultsReceived
    {
      var done, baseFirst := *, *;
      if !live && (done || (fromBase.None? && fromSub.None?)) {
        return Error;
      }
      resultsReceived := resultsReceived + 1;
      if fromBase.Some? && (baseFirst || fromSub.None?) {
        var res := fromBase.value;
        fromBase := None;
        if res.Error? {
          baseErr := true;
        } else if res.cycle || !res.allowed {
          return Answer(false, res.cycle);
        }
      } else {
        var res := fromSub.value;
        fromSub := None;
        if res.Error? {
          subErr := true;
        } else if res.cycle || res.allowed {
          return Answer(false, res.cycle);
        }
      }
    }
    r := if baseErr || subErr then Error else Answer(true, false);
  }

  /** Unlike a union it reads until the channel closes, forgets earlier errors on success, and ends in an
      error whenever its context has. */
  method ConsumeDispatches(arrivals: seq<Outcome>, live: bool) returns (r: Outcome)
    ensures if live then UnionResult(arrivals, r) else r == Error
  {
    var finalErr := false;
    var finalResult := Answer(false, false);
    var pending := arrivals;
    ghost var seen := [];
    while pending != []
      invariant seen + pending == arrivals
      invariant forall j :: 0 <= j < |seen| ==> !seen[j].Allowed()
      invariant finalErr <==> Error in seen
      invariant finalResult.Answer? && !finalResult.allowed
      invariant finalResult.cycle <==> exists j :: 0 <= j < |seen| && seen[j].Cyclic()
      decreases |pending|
    {
      var done := *;
      if !live && done { break; }
      var outcome := pending[0];
      ghost var before := seen;
      seen, pending := seen + [outcome], pending[1..];
      assert seen[|before|] == outcome;
      if outcome.Error? {
        finalErr := true;
      } else {
        if outcome.cycle {
          finalResult := finalResult.(cycle := true);
        }
        if outcome.allowed {
          finalErr := false;
          finalResult := outcome;
          assert arrivals[|before|] == outcome;
          break;
        }
      }
      assert forall j :: 0 <= j < |before| ==> seen[j] == before[j];
    }
    if !live {
      finalErr := true;
    }
    assert pending == [] ==> seen == arrivals;
    r := if finalErr then Error else finalResult;
  }

  // ----- the verdict does not depend on the order of arrival

  datatype Verdict = VerdictError | VerdictAllowed | VerdictDenied

  function VerdictOf(r: Outcome): Verdict {
    if r.Error? then VerdictError else if r.allowed then VerdictAllowed else VerdictDenied
  }

  lemma SameElements(a: seq<Outcome>, b: seq<Outcome>, o: Outcome)
    requires multiset(a) == multiset(b)
    ensures o in a <==> o in b
  {
    assert o in a <==> o in multiset(a);
    assert o in b <==> o in multiset(b);
  }

  lemma UnionOrderIrrelevant(a: seq<Outcome>, b: seq<Outcome>, r: Outcome, r': Outcome)
    requires multiset(a) == multiset(b)
    requires UnionResult(a, r) && UnionResult(b, r')
    ensures VerdictOf(r) == VerdictOf(r')
    ensures !r.Allowed() && !r'.Allowed() ==> r == r'
  {
    forall o ensures o in a <==> o in b { SameElements(a, b, o); }
    assert forall i :: 0 <= i < |a| ==> a[i] in b;
    assert forall i :: 0 <= i < |b| ==> b[i] in a;
  }

  lemma IntersectionOrderIrrelevant(a: seq<Outcome>, b: seq<Outcome>, r: Outcome, r': Outcome)
    requires multiset(a) == multiset(b)
    requires IntersectionResult(a, r) && IntersectionResult(b, r')
    ensures VerdictOf(r) == VerdictOf(r')
  {
    assert |a| == |multiset(a)| == |multiset(b)| == |b|;
    forall o ensures o in a <==> o in b { SameElements(a, b, o); }
    assert forall i :: 0 <= i < |a| ==> a[i] in b;
    assert forall i :: 0 <= i < |b| ==> b[i] in a;
  }

  lemma ExclusionOrderIrrelevant(base: Outcome, sub: Outcome, r: Outcome, r': Outcome)
    requires ExclusionResult(base, sub, r) && ExclusionResult(base, sub, r')
    ensures VerdictOf(r) == VerdictOf(r')
  {}

  // ----- what an outcome vouches for

  /** A proposition some handler decides: whether it is true, whether it is false (both may be unknown),
      whether a denial would be wrong for this particular request, and whether no chain of sub-goals comes
      back to where it has been. */
  datatype Claim = Claim(holds: bool, fails: bool, due: bool, loopless: bool)

  /** An answer free of cycles is definitive, an allowed answer is never tainted by a cycle, a claim that is
      due is not denied, and without a loop there is no flag. */
  predicate Meets(o: Outcome, c: Claim) {
    o.Answer? ==>
      && (o.allowed ==> !o.cycle && c.holds)
      && (!o.allowed ==> !c.due && (o.cycle || c.fails))
      && (c.loopless ==> !o.cycle)
  }

  ghost predicate AllMeet(outs: seq<Outcome>, claims: seq<Claim>) {
    |outs| == |claims| && forall i :: 0 <= i < |outs| ==> Meets(outs[i], claims[i])
  }

  /** The outcomes so far meet the first of the claims. */
  ghost predicate MeetSoFar(outs: seq<Outcome>, claims: seq<Claim>) {
    |outs| <= |claims| && forall i :: 0 <= i < |outs| ==> Meets(outs[i], claims[i])
  }

  lemma OneMoreMeets(outs: seq<Outcome>, claims: seq<Claim>, out: Outcome)
    requires MeetSoFar(outs, claims) && |outs| < |claims| && Meets(out, claims[|outs|])
    ensures MeetSoFar(outs + [out], claims)
    ensures Error in outs + [out] <==> Error in outs || out == Error
  {}

  lemma UnionMeets(outs: seq<Outcome>, claims: seq<Claim>, r: Outcome, c: Claim)
    requires AllMeet(outs, claims) && UnionResult(outs, r)
    requires forall i :: 0 <= i < |claims| && claims[i].holds ==> c.holds
    requires (forall i :: 0 <= i < |claims| ==> claims[i].fails) ==> c.fails
    requires c.due ==> exists i :: 0 <= i < |claims| && claims[i].due
    requires c.loopless ==> forall i :: 0 <= i < |claims| ==> claims[i].loopless
    ensures Meets(r, c)
  {
    if r.Answer? && !r.allowed && !r.cycle {
      forall i | 0 <= i < |claims| ensures claims[i].fails {
        assert outs[i] in outs && !outs[i].Cyclic();
      }
    }
    if r.Answer? && !r.allowed {
      forall i | 0 <= i < |claims| ensures !claims[i].due {
        assert outs[i] in outs;
      }
    }
  }

  lemma IntersectionMeets(outs: seq<Outcome>, claims: seq<Claim>, r: Outcome, c: Claim)
    requires AllMeet(outs, claims) && IntersectionResult(outs, r)
    requires |claims| >= 2 && (forall i :: 0 <= i < |claims| ==> claims[i].holds) ==> c.holds
    requires forall i :: 0 <= i < |claims| && claims[i].fails ==> c.fails
    requires c.due ==> forall i :: 0 <= i < |claims| ==> claims[i].due
    requires c.loopless ==> forall i :: 0 <= i < |claims| ==> claims[i].loopless
    ensures Meets(r, c)
  {
    if r.Answer? && r.allowed {
      forall i | 0 <= i < |claims| ensures claims[i].holds {
        assert outs[i] in outs && !outs[i].StopsBase() && Meets(outs[i], claims[i]);
      }
    }
  }

  lemma ExclusionMeets(base: Outcome, sub: Outcome, cb: Claim, cs: Claim, r: Outcome, c: Claim)
    requires Meets(base, cb) && Meets(sub, cs) && ExclusionResult(base, sub, r)
    requires cb.holds && cs.fails ==> c.holds
    requires cb.fails || cs.holds ==> c.fails
    requires !c.due && (c.loopless ==> cb.loopless && cs.loopless)
    ensures Meets(r, c)
  {}

  // ----- outcomes in any order of arrival

  /** The outcomes of concurrent handlers reach the reducer in any order. */
  method Arrive(outs: seq<Outcome>) returns (arrivals: seq<Outcome>)
    ensures multiset(arrivals) == multiset(outs) && |arrivals| == |outs|
  {
    arrivals := [];
    var pending := outs;
    while pending != []
      invariant multiset(arrivals) + multiset(pending) == multiset(outs)
      decreases |pending|
    {
      var i: nat :| i < |pending|;
      assert pending == pending[..i] + [pending[i]] + pending[i + 1..];
      arrivals, pending := arrivals + [pending[i]], pending[..i] + pending[i + 1..];
    }
    assert |multiset(arrivals)| == |arrivals| && |multiset(outs)| == |outs|;
  }

  lemma UnionInAnyOrder(outs: seq<Outcome>, arrivals: seq<Outcome>, r: Outcome)
    requires multiset(arrivals) == multiset(outs) && UnionResult(arrivals, r)
    ensures UnionResult(outs, r)
  {
    forall o ensures o in outs <==> o in arrivals { SameElements(outs, arrivals, o); }
    assert forall i :: 0 <= i < |outs| ==> outs[i] in arrivals;
    assert forall i :: 0 <= i < |arrivals| ==> arrivals[i] in outs;
  }

  lemma IntersectionInAnyOrder(outs: seq<Outcome>, arrivals: seq<Outcome>, r: Outcome)
    requires multiset(arrivals) == multiset(outs) && IntersectionResult(arrivals, r)
    ensures IntersectionResult(outs, r)
  {
    assert |outs| == |multiset(outs)| == |multiset(arrivals)| == |arrivals|;
    forall o ensures o in outs <==> o in arrivals { SameElements(outs, arrivals, o); }
    assert forall i :: 0 <= i < |outs| ==> outs[i] in arrivals;
    assert forall i :: 0 <= i < |arrivals| ==> arrivals[i] in outs;
  }

  /** One handler more has failed, so only an allowed answer is left, or the error. */
  lemma UnionWithErrorMeets(outs: seq<Outcome>, claims: seq<Claim>, r: Outcome, c: Claim)
    requires AllMeet(outs, claims) && UnionResult(outs + [Error], r)
    requires forall i :: 0 <= i < |claims| && claims[i].holds ==> c.holds
    ensures Meets(r, c)
  {
    assert (outs + [Error])[|outs|] == Error;
    if r.Answer? {
      var i :| 0 <= i < |outs + [Error]| && (outs + [Error])[i] == r;
    }
  }
}
