/** The three set operations of the fast path (weight_two_resolver.go), each a loop over mutable
    streams that emits batches of identifiers. */
module SetOperations {
  import opened Streams
  import opened Merge

  /** A batch is sent once it holds more than this many items. */
  const ITERATOR_MIN_BATCH_THRESHOLD: nat := 100

  /** The unread items of every stream. */
  ghost function Rests(all: set<Stream>): map<Stream, seq<Id>>
    reads all
  {
    map s | s in all :: s.view.rest
  }

  /** Bounds the reads that are still possible on a set of streams. */
  ghost function Total(all: set<Stream>): nat
    reads all
  {
    if all == {} then 0
    else
      var s :| s in all;
      s.view.size + Total(all - {s})
  }

  twostate lemma {:induction false} TotalDecreases(all: set<Stream>)
    requires forall s :: s in all ==> s.view.size <= old(s.view.size)
    ensures Total(all) <= old(Total(all))
    ensures (exists s :: s in all && s.view.size < old(s.view.size)) ==> Total(all) < old(Total(all))
  {
    if all != {} {
      var s :| s in all && Total(all) == s.view.size + Total(all - {s}) &&
               old(Total(all)) == old(s.view.size) + old(Total(all - {s}));
      TotalDecreases(all - {s});
    }
  }

  /** `g` holds the streams of `all` that may still have items; the others are exhausted. */
  ghost predicate Tracks(g: Group, all: set<Stream>)
    reads g, g.live, all
  {
    && g.Valid() && g.live <= all
    && forall s :: s in all - g.live ==> s.Valid() && s.view.rest == []
  }

  ghost predicate AllClean(all: set<Stream>)
    reads all
  {
    forall s :: s in all ==> s.Clean()
  }

  // ----- reading

  /** Looks at the head of every stream, stopping at the first that has none. */
  method ReadHeads(g: Group) returns (r: Read, heads: seq<Id>)
    requires g.Valid() && forall s :: s in g.live ==> s.buffer.Buffer?
    modifies g.live`buffer, g.live`view
    ensures g.Valid()
    ensures forall s :: s in g.live ==> s.view.rest == old(s.view.rest) && s.view.size <= old(s.view.size)
    ensures old(AllClean(g.live)) ==> AllClean(g.live) && !r.Broken?
    ensures r.Done? ==> exists s :: s in g.live && s.view.size < old(s.view.size)
    ensures r.Got? ==> ShowHeads(g, heads)
  {
    heads := [];
    for i := 0 to |g.streams|
      invariant forall s :: s in g.live ==> s.view == old(s.view) && s.buffer == old(s.buffer)
      invariant |heads| == i && forall j :: 0 <= j < i ==> Shows(g.streams[j], heads[j])
    {
      var v := g.streams[i].Head();
      if !v.Got? {
        return v, heads;
      }
      heads := heads + [v.item];
    }
    r := Got(0);
  }

  /** The head of the stream is `v`. */
  ghost predicate Shows(s: Stream, v: Id)
    reads s
  {
    && s.buffer.Buffer? && s.buffer.items != [] && s.buffer.items[0] == v
    && s.view.rest != [] && s.view.rest[0] == v
  }

  ghost predicate ShowHeads(g: Group, heads: seq<Id>)
    reads g, g.streams
  {
    |heads| == |g.streams| && forall i :: 0 <= i < |heads| ==> Shows(g.streams[i], heads[i])
  }

  predicate Increasing(ks: seq<nat>) {
    forall i, j :: 0 <= i < j < |ks| ==> ks[i] < ks[j]
  }

  /** Advances the given streams, all of which show `v`, and returns that item; with no stream to
      advance the item is the empty string. */
  method NextItemInSliceStreams(g: Group, streamsToProcess: seq<nat>, ghost v: Id) returns (item: Id, ok: bool)
    requires g.Valid() && Increasing(streamsToProcess)
    requires forall k: nat :: k in streamsToProcess ==> k < |g.streams| && Shows(g.streams[k], v)
    modifies g.live`buffer, g.live`view
    ensures g.Valid() && (old(AllClean(g.live)) ==> AllClean(g.live))
    ensures ok && item == if streamsToProcess == [] then 0 else v
    ensures forall k: nat :: k < |g.streams| ==>
              Stepped(g.streams[k].view, old(g.streams[k].view), k in streamsToProcess)
  {
    item, ok := 0, true;
    for n := 0 to |streamsToProcess|
      invariant g.Valid() && (old(AllClean(g.live)) ==> AllClean(g.live))
      invariant item == if n == 0 then 0 else v
      invariant forall k: nat :: k < |g.streams| ==>
                  Stepped(g.streams[k].view, old(g.streams[k].view), k in streamsToProcess[..n])
      invariant forall k: nat :: k < |g.streams| && k !in streamsToProcess[..n] ==>
                  g.streams[k].buffer == old(g.streams[k].buffer)
    {
      var iterIdx := streamsToProcess[n];
      assert iterIdx in streamsToProcess && iterIdx !in streamsToProcess[..n];
      var t := g.streams[iterIdx].Next();
      if !t.Got? {
        ok := false;
        return;
      }
      item := t.item;
      assert streamsToProcess[..n + 1] == streamsToProcess[..n] + [iterIdx];
    }
    assert streamsToProcess[..|streamsToProcess|] == streamsToProcess;
  }

  /** A stream that takes part loses its first item, the others are left alone. */
  ghost predicate Stepped(now: View, was: View, takesPart: bool) {
    if takesPart then was.rest != [] && now.rest == was.rest[1..] && now.size < was.size else now == was
  }

  // ----- writing

  /** The items handed over so far: the batches sent, then the batch being filled. */
  function Emitted(sent: seq<Msg>, batch: seq<Id>): seq<Id> {
    Flatten(sent) + batch
  }

  /** Adds an item to the batch, unless it is the empty string, and sends a batch that is full. */
  method AddToBatch(item: Id, batch: seq<Id>, sent: seq<Msg>) returns (batch': seq<Id>, sent': seq<Msg>)
    requires CleanMsgs(sent)
    ensures CleanMsgs(sent')
    ensures Emitted(sent', batch') == Emitted(sent, batch) + (if item == 0 then [] else [item])
    ensures |batch'| <= ITERATOR_MIN_BATCH_THRESHOLD
  {
    batch', sent' := batch, sent;
    if item != 0 {
      batch' := batch' + [item];
    }
    assert Flatten(sent) + batch' == Emitted(sent, batch) + (if item == 0 then [] else [item]);
    if |batch'| > ITERATOR_MIN_BATCH_THRESHOLD {
      sent' := Flush(batch', sent);
      batch' := [];
      assert Flatten(sent') + [] == Flatten(sent');
    }
  }

  /** Sends an error to the consumer. */
  function SendError(sent: seq<Msg>): (r: seq<Msg>)
    ensures !CleanMsgs(r) && Flatten(r) == Flatten(sent)
  {
    var r := sent + [Failed];
    assert r[|sent|] == Failed && r[..|sent|] == sent;
    r
  }

  /** Sends the batch if it holds anything. */
  method Flush(batch: seq<Id>, sent: seq<Msg>) returns (sent': seq<Msg>)
    ensures CleanMsgs(sent) <==> CleanMsgs(sent')
    ensures Flatten(sent') == Emitted(sent, batch)
    ensures sent <= sent'
  {
    sent' := sent;
    if |batch| > 0 {
      sent' := sent + [Batch(batch, false)];
      assert sent'[..|sent|] == sent;
    }
  }

  // ----- choosing

  /** The least head and the positions that show it. */
  method LeastHead(heads: seq<Id>) returns (min: Id, equal: seq<nat>)
    ensures Increasing(equal)
    ensures forall k: nat :: k in equal <==> k < |heads| && heads[k] == min
    ensures forall k :: 0 <= k < |heads| ==> min <= heads[k]
    ensures equal == [] <==> heads == []
  {
    min, equal := 0, [];
    for idx := 0 to |heads|
      invariant Increasing(equal) && forall i :: 0 <= i < |equal| ==> equal[i] < idx
      invariant forall k: nat :: k in equal <==> k < idx && heads[k] == min
      invariant forall k :: 0 <= k < idx ==> min <= heads[k]
      invariant equal == [] <==> idx == 0
    {
      var v := heads[idx];
      if idx == 0 {
        min := v;
      }
      if min == v {
        equal := equal + [idx];
      } else if min > v {
        min := v;
        equal := [idx];
      }
    }
  }

  /** The greatest head and the positions that show it. */
  method GreatestHead(heads: seq<Id>) returns (max: Id, equal: seq<nat>)
    ensures Increasing(equal)
    ensures forall k: nat :: k in equal <==> k < |heads| && heads[k] == max
    ensures forall k :: 0 <= k < |heads| ==> heads[k] <= max
    ensures equal == [] <==> heads == []
    ensures |equal| <= |heads|
    ensures |equal| == |heads| <==> forall k :: 0 <= k < |heads| ==> heads[k] == max
  {
    max, equal := 0, [];
    for idx := 0 to |heads|
      invariant Increasing(equal) && forall i :: 0 <= i < |equal| ==> equal[i] < idx
      invariant forall k: nat :: k in equal <==> k < idx && heads[k] == max
      invariant forall k :: 0 <= k < idx ==> heads[k] <= max
      invariant equal == [] <==> idx == 0
      invariant |equal| <= idx
      invariant |equal| == idx <==> forall k :: 0 <= k < idx ==> heads[k] == max
    {
      var v := heads[idx];
      if idx == 0 {
        max := v;
      }
      if max == v {
        equal := equal + [idx];
      } else if max < v {
        assert heads[0] <= max;
        max := v;
        equal := [idx];
      }
    }
  }

  // ----- one round of reading, seen from all the streams the operation started with

  /** CleanDone only drops exhausted streams and changes no unread item, unless a source fails. */
  method CleanDone(g: Group, ghost all: set<Stream>) returns (ok: bool)
    requires Tracks(g, all)
    modifies g, all
    ensures Tracks(g, all) && Total(all) <= old(Total(all))
    ensures ok ==> Rests(all) == old(Rests(all))
    ensures ok ==> g.streams == Remaining(old(g.streams)) && forall s :: s in g.live ==> s.buffer.Buffer?
    ensures ok && |g.streams| == |old(g.streams)| ==> g.streams == old(g.streams) && g.live == old(g.live)
    ensures ok && |g.streams| != |old(g.streams)| ==> exists s :: s in all && Rests(all)[s] == []
    ensures old(AllClean(all)) ==> AllClean(all) && ok
  {
    ghost var before := g.streams;
    ok := g.CleanDone();
    if !ok {
      TotalDecreases(all);
    } else {
      SameRests(all);
      if |g.streams| != |before| {
        SomeStreamIsDone(before);
        ghost var s :| s in before && s.IsDone();
        assert s in all && Rests(all)[s] == [];
      }
    }
  }

  twostate lemma SameRests(all: set<Stream>)
    requires forall s :: s in all ==> s.view.rest == old(s.view.rest) && s.view.size <= old(s.view.size)
    ensures Rests(all) == old(Rests(all))
    ensures Total(all) <= old(Total(all))
    ensures (exists s :: s in all && s.view.size < old(s.view.size)) ==> Total(all) < old(Total(all))
  {
    TotalDecreases(all);
  }

  /** Looking at the heads changes no unread item. */
  method Heads(g: Group, ghost all: set<Stream>) returns (r: Read, heads: seq<Id>)
    requires Tracks(g, all) && forall s :: s in g.live ==> s.buffer.Buffer?
    modifies all`buffer, all`view
    ensures Tracks(g, all) && Rests(all) == old(Rests(all))
    ensures Total(all) <= old(Total(all)) && (r.Done? ==> Total(all) < old(Total(all)))
    ensures old(AllClean(all)) ==> AllClean(all) && !r.Broken?
    ensures r.Got? ==> ShowHeads(g, heads)
  {
    r, heads := ReadHeads(g);
    SameRests(all);
  }

  /** Advances the streams that show `v`; as their heads have been read this cannot fail. */
  method AdvanceStreams(g: Group, ghost all: set<Stream>, ghost heads: seq<Id>, streamsToProcess: seq<nat>, ghost v: Id)
    returns (item: Id)
    requires Tracks(g, all) && ShowHeads(g, heads) && Increasing(streamsToProcess)
    requires forall k: nat :: k in streamsToProcess <==> k < |heads| && heads[k] == v
    modifies all`buffer, all`view
    ensures Tracks(g, all)
    ensures old(AllClean(all)) ==> AllClean(all)
    ensures item == if streamsToProcess == [] then 0 else v
    ensures forall s :: s in all ==> Rests(all)[s] == Advance(old(Rests(all))[s], v)
    ensures Total(all) <= old(Total(all)) && (streamsToProcess != [] ==> Total(all) < old(Total(all)))
  {
    var ok;
    item, ok := NextItemInSliceStreams(g, streamsToProcess, v);
    forall s | s in all
      ensures s.view.rest == Advance(old(s.view.rest), v) && s.view.size <= old(s.view.size)
    {
      if s in g.live {
        var k :| 0 <= k < |g.streams| && g.streams[k] == s;
        assert old(Shows(g.streams[k], heads[k]));
      }
    }
    if streamsToProcess != [] {
      assert streamsToProcess[0] in streamsToProcess;
      assert g.streams[streamsToProcess[0]] in g.live;
    }
    TotalDecreases(all);
  }

  /** The least head is the least unread item. */
  lemma HeadsBound(g: Group, all: set<Stream>, heads: seq<Id>, min: Id, equal: seq<nat>)
    requires Tracks(g, all) && ShowHeads(g, heads)
    requires forall k :: 0 <= k < |heads| ==> min <= heads[k]
    requires equal == [] <==> heads == []
    requires equal != [] ==> equal[0] < |heads| && heads[equal[0]] == min
    ensures forall s :: s in all && Rests(all)[s] != [] ==> min <= Rests(all)[s][0]
    ensures equal != [] <==> exists s :: s in all && Rests(all)[s] != [] && Rests(all)[s][0] == min
  {
    forall s | s in all && Rests(all)[s] != []
      ensures min <= Rests(all)[s][0] && equal != []
    {
      var k :| 0 <= k < |heads| && g.streams[k] == s;
      assert Shows(g.streams[k], heads[k]);
    }
    if equal != [] {
      var s := g.streams[equal[0]];
      assert Shows(s, min) && s in g.live;
      assert Rests(all)[s][0] == min;
    }
  }

  // ----- union

  method FastPathUnion(g: Group) returns (sent: seq<Msg>)
    requires g.Valid() && Sorted(Rests(g.live))
    modifies g, g.live
    ensures old(AllClean(g.live)) ==> CleanMsgs(sent)
    ensures UnionPart(old(Rests(g.live)), Flatten(sent))
    ensures CleanMsgs(sent) ==> UnionSpec(old(Rests(g.live)), Flatten(sent))
  {
    ghost var all := g.live;
    ghost var origin := Rests(all);
    var batch: seq<Id> := [];
    sent := [];
    UnionStart(origin);
    var ok := true;
    while |g.streams| > 0
      invariant Tracks(g, all) && CleanMsgs(sent)
      invariant UnionInv(origin, Rests(all), Emitted(sent, batch))
      invariant old(AllClean(g.live)) ==> AllClean(all)
      decreases Total(all), |g.streams|
    {
      batch, sent, ok := UnionIteration(g, all, origin, batch, sent);
      if !ok {
        sent := Flush(batch, sent);
        return;
      }
    }
    UnionEnd(origin, Rests(all), Emitted(sent, batch));
    UnionSoFar(origin, Rests(all), Emitted(sent, batch));
    sent := Flush(batch, sent);
  }

  method UnionIteration(g: Group, ghost all: set<Stream>, ghost origin: map<Stream, seq<Id>>, batch: seq<Id>,
                        sent: seq<Msg>)
    returns (batch': seq<Id>, sent': seq<Msg>, ok: bool)
    requires Tracks(g, all) && |g.streams| > 0 && CleanMsgs(sent)
    requires UnionInv(origin, Rests(all), Emitted(sent, batch))
    modifies g, all
    ensures Tracks(g, all)
    ensures old(AllClean(all)) ==> AllClean(all) && ok
    ensures ok ==> UnionInv(origin, Rests(all), Emitted(sent', batch'))
    ensures !ok ==> UnionPart(origin, Emitted(sent', batch'))
    ensures ok <==> CleanMsgs(sent')
    ensures ok ==> Total(all) < old(Total(all)) || (Total(all) == old(Total(all)) && |g.streams| < |old(g.streams)|)
  {
    batch', sent' := batch, sent;
    UnionSoFar(origin, Rests(all), Emitted(sent, batch));
    ok := CleanDone(g, all);
    if !ok {
      sent' := SendError(sent);
      return;
    }
    var r, heads := Heads(g, all);
    if r.Broken? {
      return batch, SendError(sent), false;
    }
    if r.Done? {
      return batch, sent, true;
    }
    batch', sent' := EmitLeast(g, all, origin, heads, batch, sent);
  }

  /** All heads are known: the streams that show the least one move forward, and it is emitted. */
  method EmitLeast(g: Group, ghost all: set<Stream>, ghost origin: map<Stream, seq<Id>>, heads: seq<Id>, batch: seq<Id>,
                   sent: seq<Msg>)
    returns (batch': seq<Id>, sent': seq<Msg>)
    requires Tracks(g, all) && ShowHeads(g, heads) && CleanMsgs(sent)
    requires UnionInv(origin, Rests(all), Emitted(sent, batch))
    modifies all`buffer, all`view
    ensures Tracks(g, all) && (old(AllClean(all)) ==> AllClean(all))
    ensures UnionInv(origin, Rests(all), Emitted(sent', batch')) && CleanMsgs(sent')
    ensures Total(all) <= old(Total(all)) && (heads != [] ==> Total(all) < old(Total(all)))
  {
    ghost var rests := Rests(all);
    var item;
    ghost var min;
    item, min := AdvanceLeast(g, all, heads);
    UnionAdvance(origin, rests, Emitted(sent, batch), min, Rests(all), item);
    batch', sent' := AddToBatch(item, batch, sent);
  }

  method AdvanceLeast(g: Group, ghost all: set<Stream>, heads: seq<Id>) returns (item: Id, ghost least: Id)
    requires Tracks(g, all) && ShowHeads(g, heads)
    modifies all`buffer, all`view
    ensures Tracks(g, all) && (old(AllClean(all)) ==> AllClean(all))
    ensures LeastMoved(old(Rests(all)), Rests(all), least, item)
    ensures Total(all) <= old(Total(all)) && (heads != [] ==> Total(all) < old(Total(all)))
  {
    var min, equal := LeastHead(heads);
    least := min;
    assert equal != [] ==> equal[0] in equal;
    HeadsBound(g, all, heads, min, equal);
    item := AdvanceStreams(g, all, heads, equal, min);
  }

  // ----- intersection

  /** No stream has been dropped yet. */
  ghost predicate Whole(g: Group, all: set<Stream>, childrenTotal: nat)
    reads g, g.live, all
  {
    g.Valid() && g.live == all && |g.streams| == childrenTotal
  }

  datatype Progress = Continue | Finished | Aborted

  /** Requires one or more streams: with none the source's loop would not end. */
  method FastPathIntersection(g: Group) returns (sent: seq<Msg>)
    requires g.Valid() && g.streams != [] && Sorted(Rests(g.live))
    modifies g, g.live
    ensures old(AllClean(g.live)) ==> CleanMsgs(sent)
    ensures InterPart(old(Rests(g.live)), Flatten(sent))
    ensures CleanMsgs(sent) ==> InterSpec(old(Rests(g.live)), Flatten(sent))
  {
    ghost var all := g.live;
    ghost var origin := Rests(all);
    var batch: seq<Id> := [];
    sent := [];
    InterStart(origin);
    var childrenTotal := |g.streams|;
    assert g.streams[0] in all;
    var progress := Continue;
    while progress == Continue
      invariant progress == Continue ==> Whole(g, all, childrenTotal)
      invariant progress == Continue ==> InterInv(origin, Rests(all), Emitted(sent, batch)) && CleanMsgs(sent)
      invariant old(AllClean(g.live)) ==> AllClean(all) && progress != Aborted
      invariant progress == Aborted ==> !CleanMsgs(sent)
      invariant progress != Continue ==> InterPart(origin, Emitted(sent, batch))
      invariant progress == Finished ==> InterSpec(origin, Emitted(sent, batch)) && CleanMsgs(sent)
      decreases progress == Continue, Total(all)
    {
      batch, sent, progress := IntersectionStep(g, all, origin, childrenTotal, batch, sent);
    }
    sent := Flush(batch, sent);
  }

  method IntersectionStep(g: Group, ghost all: set<Stream>, ghost origin: map<Stream, seq<Id>>, childrenTotal: nat,
                          batch: seq<Id>, sent: seq<Msg>)
    returns (batch': seq<Id>, sent': seq<Msg>, progress: Progress)
    requires Whole(g, all, childrenTotal) && all != {} && CleanMsgs(sent)
    requires InterInv(origin, Rests(all), Emitted(sent, batch))
    modifies g, all
    ensures old(AllClean(all)) ==> AllClean(all) && progress != Aborted
    ensures progress == Aborted <==> !CleanMsgs(sent')
    ensures progress != Continue ==> InterPart(origin, Emitted(sent', batch'))
    ensures progress == Finished ==> InterSpec(origin, Emitted(sent', batch'))
    ensures progress == Continue ==> Whole(g, all, childrenTotal)
    ensures progress == Continue ==>
            InterInv(origin, Rests(all), Emitted(sent', batch')) && Total(all) < old(Total(all))
  {
    ghost var rests := Rests(all);
    InterSorted(origin, rests, Emitted(sent, batch));
    InterSoFar(origin, rests, Emitted(sent, batch));
    batch', sent' := batch, sent;
    var item;
    item, progress := IntersectionIteration(g, all, childrenTotal);
    if progress == Aborted {
      sent' := SendError(sent);
    } else if progress == Finished {
      ghost var s :| s in all && rests[s] == [];
      InterEnd(origin, rests, Emitted(sent, batch), s);
    } else {
      batch', sent' := EmitCommon(origin, rests, Rests(all), item, batch, sent);
    }
  }

  method EmitCommon<K>(ghost origin: map<K, seq<Id>>, ghost rests: map<K, seq<Id>>, ghost rests': map<K, seq<Id>>,
                       item: Id, batch: seq<Id>, sent: seq<Msg>)
    returns (batch': seq<Id>, sent': seq<Msg>)
    requires InterInv(origin, rests, Emitted(sent, batch)) && InterMoved(rests, rests', item) && CleanMsgs(sent)
    ensures InterInv(origin, rests', Emitted(sent', batch')) && CleanMsgs(sent')
  {
    InterMove(origin, rests, Emitted(sent, batch), item, rests');
    batch', sent' := AddToBatch(item, batch, sent);
  }

  method IntersectionIteration(g: Group, ghost all: set<Stream>, childrenTotal: nat)
    returns (item: Id, progress: Progress)
    requires Whole(g, all, childrenTotal) && all != {} && Sorted(Rests(all))
    modifies g, all
    ensures old(AllClean(all)) ==> AllClean(all) && progress != Aborted
    ensures progress == Finished ==> exists s :: s in all && old(Rests(all))[s] == []
    ensures progress == Continue ==>
              && Whole(g, all, childrenTotal)
              && InterMoved(old(Rests(all)), Rests(all), item) && Total(all) < old(Total(all))
  {
    item := 0;
    var ok := CleanDone(g, all);
    if !ok {
      return 0, Aborted;
    }
    if |g.streams| != childrenTotal {
      return 0, Finished;
    }
    var r, heads := Heads(g, all);
    if r.Broken? {
      return 0, Aborted;
    }
    progress := Continue;
    if r.Got? {
      item, ok := AdvanceOrSkip(g, all, heads);
      progress := if ok then Continue else Aborted;
    }
  }

  /** Returns the common head after moving past it, or the empty string after skipping. */
  method AdvanceOrSkip(g: Group, ghost all: set<Stream>, heads: seq<Id>) returns (item: Id, ok: bool)
    requires g.Valid() && g.live == all && ShowHeads(g, heads) && all != {} && Sorted(Rests(all))
    modifies all`buffer, all`view
    ensures g.Valid() && (old(AllClean(all)) ==> AllClean(all) && ok)
    ensures ok ==> InterMoved(old(Rests(all)), Rests(all), item) && Total(all) < old(Total(all))
  {
    var max, equal := GreatestHead(heads);
    ghost var w := GreatestIsShown(g, all, heads, max, equal);
    if |equal| == |heads| {
      item := AdvanceEqual(g, all, heads, equal, max);
      ok := true;
    } else {
      ok := SkipLagging(g, all, heads, max);
      item := 0;
      assert ok ==> AllSkipped(old(Rests(all)), Rests(all), w);
    }
  }

  method AdvanceEqual(g: Group, ghost all: set<Stream>, ghost heads: seq<Id>, equal: seq<nat>, ghost max: Id)
    returns (item: Id)
    requires g.Valid() && g.live == all && ShowHeads(g, heads)
    requires equal != [] && Increasing(equal) && forall k :: 0 <= k < |heads| ==> heads[k] == max
    requires forall k: nat :: k in equal <==> k < |heads| && heads[k] == max
    modifies all`buffer, all`view
    ensures g.Valid() && (old(AllClean(all)) ==> AllClean(all))
    ensures AllMoved(old(Rests(all)), Rests(all), max) && item == max
    ensures Total(all) < old(Total(all))
  {
    HeadsAgree(g, all, heads, max);
    item := AdvanceStreams(g, all, heads, equal, max);
  }

  method SkipLagging(g: Group, ghost all: set<Stream>, heads: seq<Id>, max: Id) returns (ok: bool)
    requires g.Valid() && g.live == all && ShowHeads(g, heads) && max > 0
    requires exists k :: 0 <= k < |heads| && heads[k] < max
    modifies all`buffer, all`view
    ensures g.Valid() && (old(AllClean(all)) ==> AllClean(all) && ok)
    ensures ok ==> forall s :: s in all ==> SkipsTo(old(Rests(all))[s], Rests(all)[s], max)
    ensures ok ==> Total(all) < old(Total(all))
  {
    ghost var low :| 0 <= low < |heads| && heads[low] < max;
    assert Shows(g.streams[low], heads[low]) && g.streams[low] in all;
    ok := SkipAll(g, heads, max);
    if ok {
      TotalDecreases(all);
    }
  }

  lemma GreatestIsShown(g: Group, all: set<Stream>, heads: seq<Id>, max: Id, equal: seq<nat>) returns (w: Stream)
    requires g.Valid() && g.live == all && ShowHeads(g, heads) && all != {}
    requires forall k: nat :: k in equal <==> k < |heads| && heads[k] == max
    requires equal == [] <==> heads == []
    requires Sorted(Rests(all))
    ensures equal != [] && w in all && Rests(all)[w] != [] && Rests(all)[w][0] == max > 0
  {
    var s :| s in all;
    assert s in g.streams;
    assert equal[0] in equal;
    w := g.streams[equal[0]];
    assert Shows(w, max) && w in g.live;
  }

  lemma HeadsAgree(g: Group, all: set<Stream>, heads: seq<Id>, max: Id)
    requires g.Valid() && g.live == all && ShowHeads(g, heads)
    requires forall k :: 0 <= k < |heads| ==> heads[k] == max
    ensures forall s :: s in all ==> Rests(all)[s] != [] && Rests(all)[s][0] == max
  {
    forall s | s in all ensures Rests(all)[s] != [] && Rests(all)[s][0] == max {
      var k :| 0 <= k < |heads| && g.streams[k] == s;
      assert Shows(g.streams[k], heads[k]);
    }
  }

  /** SkipToTargetObject in terms of the unread items. */
  method SkipTo(s: Stream, target: Id) returns (ok: bool)
    requires s.Valid() && target > 0
    requires s.buffer.Buffer? && s.buffer.items != [] && s.view.rest != [] && s.view.rest[0] == s.buffer.items[0]
    modifies s`buffer, s`view
    ensures s.Valid() && Skipped(s.view, old(s.view), target)
    ensures old(s.Clean()) ==> s.Clean() && ok
  {
    ghost var b := s.buffer;
    ghost var k;
    ok, k := s.SkipToTargetObject(target);
    assert b.items[0] < target ==> s.buffer != b;
  }

  ghost predicate Skipped(now: View, was: View, target: Id) {
    && now.size <= was.size && SkipsTo(was.rest, now.rest, target)
    && (was.rest != [] && was.rest[0] < target ==> now.size < was.size)
  }

  /** Moves every stream up to the target. */
  method SkipAll(g: Group, heads: seq<Id>, target: Id) returns (ok: bool)
    requires g.Valid() && ShowHeads(g, heads) && target > 0
    modifies g.live`buffer, g.live`view
    ensures g.Valid() && (old(AllClean(g.live)) ==> AllClean(g.live) && ok)
    ensures ok ==> forall s :: s in g.live ==> Skipped(s.view, old(s.view), target)
  {
    for i := 0 to |g.streams|
      invariant g.Valid() && (old(AllClean(g.live)) ==> AllClean(g.live))
      invariant forall k :: 0 <= k < i ==> Skipped(g.streams[k].view, old(g.streams[k].view), target)
      invariant forall k :: i <= k < |g.streams| ==>
                  g.streams[k].buffer == old(g.streams[k].buffer) && g.streams[k].view == old(g.streams[k].view)
    {
      assert old(Shows(g.streams[i], heads[i]));
      ok := SkipTo(g.streams[i], target);
      if !ok {
        return;
      }
    }
    ok := true;
  }

  // ----- difference

  const BASE_INDEX: nat := 0
  const DIFFERENCE_INDEX: nat := 1

  ghost predicate IsPair(b: Stream, d: Stream) {
    b != d && b.idx == BASE_INDEX && d.idx == DIFFERENCE_INDEX
  }

  /** Both streams are still there, the base first. */
  ghost predicate BothLive(g: Group, b: Stream, d: Stream)
    reads g, g.live, b, d
  {
    IsPair(b, d) && g.Valid() && g.live == {b, d} && g.streams == [b, d]
  }

  /** At least one of the two streams has been dropped. */
  ghost predicate SomeDropped(g: Group, b: Stream, d: Stream)
    reads g, g.live, b, d
  {
    IsPair(b, d) && Tracks(g, {b, d}) && (g.streams == [b] || g.streams == [d] || g.streams == [])
  }

  method FastPathDifference(g: Group) returns (sent: seq<Msg>)
    requires g.Valid() && |g.streams| == 2 && IsPair(g.streams[0], g.streams[1])
    requires Ascending(g.streams[0].view.rest) && Proper(g.streams[0].view.rest) && Ascending(g.streams[1].view.rest)
    modifies g, g.live
    ensures old(AllClean(g.live)) ==> CleanMsgs(sent)
    ensures DiffPart(old(g.streams[0].view.rest), old(g.streams[1].view.rest), Flatten(sent))
    ensures CleanMsgs(sent) ==> DiffSpec(old(g.streams[0].view.rest), old(g.streams[1].view.rest), Flatten(sent))
  {
    ghost var b, d := g.streams[0], g.streams[1];
    assert g.live == {b, d};
    ghost var base0, sub0 := b.view.rest, d.view.rest;
    var batch: seq<Id> := [];
    sent := [];
    DiffStart(base0, sub0);
    DiffSoFar(base0, sub0, base0, sub0, []);
    var progress := Continue;
    while progress == Continue
      invariant progress == Continue ==> BothLive(g, b, d)
      invariant progress == Finished ==> SomeDropped(g, b, d)
      invariant progress != Aborted ==> DiffInv(base0, sub0, b.view.rest, d.view.rest, Emitted(sent, batch))
      invariant progress == Aborted <==> !CleanMsgs(sent)
      invariant DiffPart(base0, sub0, Emitted(sent, batch))
      invariant old(AllClean(g.live)) ==> AllClean({b, d}) && progress != Aborted
      decreases progress == Continue, Total({b, d})
    {
      batch, sent, progress := DifferenceStep(g, b, d, base0, sub0, batch, sent);
    }
    if progress == Finished {
      batch, sent := DrainBase(g, b, d, base0, sub0, batch, sent);
    }
    sent := Flush(batch, sent);
  }

  method DifferenceStep(g: Group, ghost b: Stream, ghost d: Stream, ghost base0: seq<Id>, ghost sub0: seq<Id>,
                        batch: seq<Id>, sent: seq<Msg>)
    returns (batch': seq<Id>, sent': seq<Msg>, progress: Progress)
    requires BothLive(g, b, d) && CleanMsgs(sent)
    requires DiffInv(base0, sub0, b.view.rest, d.view.rest, Emitted(sent, batch))
    modifies g, b, d
    ensures old(AllClean({b, d})) ==> AllClean({b, d}) && progress != Aborted
    ensures progress == Aborted <==> !CleanMsgs(sent')
    ensures progress == Continue ==> BothLive(g, b, d) && Total({b, d}) < old(Total({b, d}))
    ensures progress == Finished ==> SomeDropped(g, b, d)
    ensures DiffPart(base0, sub0, Emitted(sent', batch'))
    ensures progress != Aborted ==> DiffInv(base0, sub0, b.view.rest, d.view.rest, Emitted(sent', batch'))
  {
    ghost var base, sub := b.view.rest, d.view.rest;
    batch', sent' := batch, sent;
    DiffSoFar(base0, sub0, base, sub, Emitted(sent, batch));
    var item;
    item, progress := DifferenceIteration(g, b, d);
    if progress == Aborted {
      sent' := SendError(sent);
    } else {
      DiffMove(base0, sub0, base, sub, Emitted(sent, batch), item, b.view.rest, d.view.rest);
      batch', sent' := AddToBatch(item, batch, sent);
      DiffSoFar(base0, sub0, b.view.rest, d.view.rest, Emitted(sent', batch'));
    }
  }

  method DifferenceIteration(g: Group, ghost b: Stream, ghost d: Stream) returns (item: Id, progress: Progress)
    requires BothLive(g, b, d) && Ascending(b.view.rest) && Proper(b.view.rest)
    modifies g, b, d
    ensures old(AllClean({b, d})) ==> AllClean({b, d}) && progress != Aborted
    ensures progress == Continue ==> BothLive(g, b, d) && Total({b, d}) < old(Total({b, d}))
    ensures progress == Finished ==> SomeDropped(g, b, d)
    ensures progress != Aborted ==> DiffMoved(old(b.view.rest), old(d.view.rest), b.view.rest, d.view.rest, item)
  {
    item := 0;
    var ok := CleanBoth(g, b, d);
    if !ok {
      return 0, Aborted;
    }
    if |g.streams| != 2 {
      return 0, Finished;
    }
    item, progress := LookAndCompare(g, b, d);
  }

  method LookAndCompare(g: Group, ghost b: Stream, ghost d: Stream) returns (item: Id, progress: Progress)
    requires BothLive(g, b, d) && b.buffer.Buffer? && d.buffer.Buffer?
    requires Ascending(b.view.rest) && Proper(b.view.rest)
    modifies b`buffer, b`view, d`buffer, d`view
    ensures BothLive(g, b, d) && progress != Finished
    ensures old(AllClean({b, d})) ==> AllClean({b, d}) && progress != Aborted
    ensures progress == Continue ==> Total({b, d}) < old(Total({b, d}))
    ensures progress == Continue ==> DiffMoved(old(b.view.rest), old(d.view.rest), b.view.rest, d.view.rest, item)
  {
    item, progress := 0, Continue;
    var r, heads := Heads(g, {b, d});
    assert Rests({b, d})[b] == b.view.rest && Rests({b, d})[d] == d.view.rest;
    if r.Broken? {
      progress := Aborted;
    } else if r.Got? {
      var ok;
      item, ok := CompareHeads(g, b, d, heads);
      progress := if ok then Continue else Aborted;
    }
  }

  /** CleanDone while both streams of a difference are still there. */
  method CleanBoth(g: Group, ghost b: Stream, ghost d: Stream) returns (ok: bool)
    requires BothLive(g, b, d)
    modifies g, b, d
    ensures ok ==> b.view.rest == old(b.view.rest) && d.view.rest == old(d.view.rest)
    ensures Total({b, d}) <= old(Total({b, d}))
    ensures old(AllClean({b, d})) ==> AllClean({b, d}) && ok
    ensures ok ==> if |g.streams| == 2 then BothLive(g, b, d) else SomeDropped(g, b, d)
    ensures ok ==> forall s :: s in g.live ==> s.buffer.Buffer?
  {
    ok := CleanDone(g, {b, d});
    assert Rests({b, d})[b] == b.view.rest && Rests({b, d})[d] == d.view.rest;
    RemainingOfTwo([b, d], b, d);
  }

  /** CleanDone once one of them has been dropped. */
  method CleanRest(g: Group, ghost b: Stream, ghost d: Stream) returns (ok: bool)
    requires SomeDropped(g, b, d)
    modifies g, b, d
    ensures ok ==> b.view.rest == old(b.view.rest) && d.view.rest == old(d.view.rest)
    ensures b.view.size <= old(b.view.size)
    ensures old(AllClean({b, d})) ==> AllClean({b, d}) && ok
    ensures ok ==> SomeDropped(g, b, d) && g.streams <= old(g.streams)
    ensures ok ==> forall s :: s in g.live ==> s.buffer.Buffer?
  {
    ghost var was := g.streams;
    ok := g.CleanDone();
    RemainingOfTwo(was, b, d);
  }

  lemma RemainingOfTwo(ss: seq<Stream>, b: Stream, d: Stream)
    requires ss == [b, d] || ss == [b] || ss == [d] || ss == []
    ensures Remaining(ss) == [] || Remaining(ss) == [b] || Remaining(ss) == [d] || Remaining(ss) == [b, d]
    ensures |ss| <= 1 ==> Remaining(ss) <= ss
    ensures Remaining(ss) == [b, d] ==> ss == [b, d]
  {
    if |ss| == 2 {
      assert ss[..1] == [b] && [b][..0] == [];
    } else if |ss| == 1 {
      assert ss[..0] == [];
    }
  }

  /** Two equal heads cancel; a smaller base head is emitted; otherwise the subtracted stream skips. */
  method CompareHeads(g: Group, ghost b: Stream, ghost d: Stream, heads: seq<Id>) returns (item: Id, ok: bool)
    requires BothLive(g, b, d) && ShowHeads(g, heads) && Ascending(b.view.rest) && Proper(b.view.rest)
    modifies b`buffer, b`view, d`buffer, d`view
    ensures BothLive(g, b, d)
    ensures old(AllClean({b, d})) ==> AllClean({b, d}) && ok
    ensures ok ==> Total({b, d}) < old(Total({b, d}))
    ensures ok ==> DiffMoved(old(b.view.rest), old(d.view.rest), b.view.rest, d.view.rest, item)
  {
    var base, diff := heads[BASE_INDEX], heads[DIFFERENCE_INDEX];
    assert Shows(g.streams[0], base) && Shows(g.streams[1], diff);
    item, ok := 0, true;
    if base == diff {
      var _ := AdvanceStreams(g, {b, d}, heads, [BASE_INDEX, DIFFERENCE_INDEX], base);
    } else if diff > base {
      item := AdvanceStreams(g, {b, d}, heads, [BASE_INDEX], base);
    } else {
      ok := SkipTo(g.streams[DIFFERENCE_INDEX], base);
      TotalDecreases({b, d});
    }
  }

  /** What is left of the base is emitted once the subtracted stream is exhausted. */
  method DrainBase(g: Group, ghost b: Stream, ghost d: Stream, ghost base0: seq<Id>, ghost sub0: seq<Id>,
                   batch: seq<Id>, sent: seq<Msg>)
    returns (batch': seq<Id>, sent': seq<Msg>)
    requires SomeDropped(g, b, d) && CleanMsgs(sent)
    requires DiffInv(base0, sub0, b.view.rest, d.view.rest, Emitted(sent, batch))
    modifies g, b, d
    ensures old(AllClean({b, d})) ==> CleanMsgs(sent')
    ensures DiffPart(base0, sub0, Emitted(sent', batch'))
    ensures CleanMsgs(sent') ==> DiffSpec(base0, sub0, Emitted(sent', batch'))
  {
    batch', sent' := batch, sent;
    DiffSoFar(base0, sub0, b.view.rest, d.view.rest, Emitted(sent, batch));
    var ok := CleanRest(g, b, d);
    if ok && |g.streams| == 1 && g.streams[0].idx == BASE_INDEX {
      while ok && |g.streams| == 1
        invariant DiffPart(base0, sub0, Emitted(sent', batch'))
        invariant CleanMsgs(sent') && (old(AllClean({b, d})) ==> AllClean({b, d}) && ok)
        invariant ok ==> SomeDropped(g, b, d) && d !in g.live && (b in g.live ==> b.buffer.Buffer?)
        invariant ok ==> DiffInv(base0, sub0, b.view.rest, [], Emitted(sent', batch'))
        decreases ok, b.view.size
      {
        batch', sent', ok := DrainOnce(g, b, d, base0, sub0, batch', sent');
      }
    }
    if !ok {
      sent' := SendError(sent');
    } else {
      DiffEnd(base0, sub0, d.view.rest, Emitted(sent', batch'));
    }
  }

  method DrainOnce(g: Group, ghost b: Stream, ghost d: Stream, ghost base0: seq<Id>, ghost sub0: seq<Id>,
                   batch: seq<Id>, sent: seq<Msg>)
    returns (batch': seq<Id>, sent': seq<Msg>, ok: bool)
    requires SomeDropped(g, b, d) && g.streams == [b] && b.buffer.Buffer? && CleanMsgs(sent)
    requires DiffInv(base0, sub0, b.view.rest, [], Emitted(sent, batch))
    modifies g, b, d
    ensures CleanMsgs(sent') && (old(AllClean({b, d})) ==> AllClean({b, d}) && ok)
    ensures ok ==> SomeDropped(g, b, d) && d !in g.live && (b in g.live ==> b.buffer.Buffer?)
    ensures DiffPart(base0, sub0, Emitted(sent', batch'))
    ensures ok ==> DiffInv(base0, sub0, b.view.rest, [], Emitted(sent', batch')) && b.view.size < old(b.view.size)
  {
    batch', sent' := batch, sent;
    DiffSoFar(base0, sub0, b.view.rest, [], Emitted(sent, batch));
    var items;
    items, ok := g.streams[BASE_INDEX].Drain();
    if ok {
      batch', sent' := AppendTail(base0, sub0, items, b.view.rest, batch, sent);
      ok := CleanRest(g, b, d);
    }
  }

  /** Adds what was drained from the base, and sends the batch if it is full. */
  method AppendTail(ghost base0: seq<Id>, ghost sub0: seq<Id>, items: seq<Id>, ghost base: seq<Id>, batch: seq<Id>,
                    sent: seq<Msg>)
    returns (batch': seq<Id>, sent': seq<Msg>)
    requires DiffInv(base0, sub0, items + base, [], Emitted(sent, batch)) && CleanMsgs(sent)
    ensures DiffInv(base0, sub0, base, [], Emitted(sent', batch')) && CleanMsgs(sent')
    ensures DiffPart(base0, sub0, Emitted(sent', batch'))
  {
    DiffTail(base0, sub0, items, base, Emitted(sent, batch));
    AppendAssoc(Flatten(sent), batch, items);
    batch', sent' := batch + items, sent;
    if |batch'| > ITERATOR_MIN_BATCH_THRESHOLD {
      sent' := Flush(batch', sent);
      batch' := [];
      assert Flatten(sent') + [] == Flatten(sent');
    }
    DiffSoFar(base0, sub0, base, [], Emitted(sent', batch'));
  }
}
