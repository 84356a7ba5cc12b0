/** Batched sorted streams of object identifiers (internal/iterator/stream.go). */
module Streams {

  /** An object identifier of one fixed type, as its rank in byte order; 0 is the empty string. */
  type Id = nat

  /** What a producer sends: an iterator over a batch, which may break off with an error after its
      last item, or an error in place of an iterator. */
  datatype Msg =
    | Batch(items: seq<Id>, broken: bool)
    | Failed

  /** The three ways a read can end. */
  datatype Read =
    | Got(item: Id)
    | Done
    | Broken

  datatype Buffer = NoBuffer | Buffer(items: seq<Id>, broken: bool)

  predicate Ascending(s: seq<Id>) {
    forall i, j :: 0 <= i < j < |s| ==> s[i] <= s[j]
  }

  predicate StrictlyAscending(s: seq<Id>) {
    forall i, j :: 0 <= i < j < |s| ==> s[i] < s[j]
  }

  /** All items are identifiers of objects, none is the empty string. */
  predicate Proper(s: seq<Id>) {
    forall i :: 0 <= i < |s| ==> s[i] > 0
  }

  function ItemsOf(m: Msg): seq<Id> {
    if m.Batch? then m.items else []
  }

  function Flatten(msgs: seq<Msg>): seq<Id> {
    if msgs == [] then [] else Flatten(msgs[..|msgs| - 1]) + ItemsOf(msgs[|msgs| - 1])
  }

  lemma {:induction false} FlattenConcat(a: seq<Msg>, b: seq<Msg>)
    ensures Flatten(a + b) == Flatten(a) + Flatten(b)
  {
    if b == [] {
      assert a + b == a;
    } else {
      var k := |b| - 1;
      FlattenConcat(a, b[..k]);
      assert (a + b)[..|a + b| - 1] == a + b[..k];
      AppendAssoc(Flatten(a), Flatten(b[..k]), ItemsOf(b[k]));
    }
  }

  lemma {:induction false} FlattenFirst(msgs: seq<Msg>)
    requires msgs != []
    ensures Flatten(msgs) == ItemsOf(msgs[0]) + Flatten(msgs[1..])
  {
    var k := |msgs| - 1;
    if k == 0 {
      assert msgs[..k] == [] && msgs[1..] == [];
    } else {
      FlattenFirst(msgs[..k]);
      assert msgs[..k][1..] == msgs[1..][..k - 1];
      AppendAssoc(ItemsOf(msgs[0]), Flatten(msgs[1..][..k - 1]), ItemsOf(msgs[k]));
    }
  }

  lemma AppendAssoc(a: seq<Id>, b: seq<Id>, c: seq<Id>)
    ensures (a + b) + c == a + (b + c)
  {}

  lemma ShiftHead(a: seq<Id>, b: seq<Id>)
    requires b != []
    ensures a + b == (a + [b[0]]) + b[1..]
  {}

  lemma DropHead(a: seq<Id>, b: seq<Id>)
    requires a != []
    ensures (a + b)[0] == a[0] && (a + b)[1..] == a[1..] + b
  {}

  /** `now` is `was` without its first `k` items, all of them below the target. */
  ghost predicate SkippedBelow(was: seq<Id>, now: seq<Id>, k: nat, target: Id) {
    k <= |was| && now == was[k..] && forall i :: 0 <= i < k ==> was[i] < target
  }

  function DropBelow(items: seq<Id>, target: Id): (r: seq<Id>)
    ensures |r| <= |items| && (r != [] ==> r[0] >= target)
  {
    if items == [] || items[0] >= target then items else DropBelow(items[1..], target)
  }

  /** The buffer after the items below the target are skipped; an exhausted one is released. */
  function SkipBuffer(b: Buffer, target: Id): Buffer {
    if b.NoBuffer? then NoBuffer
    else
      Release(Buffer(DropBelow(b.items, target), b.broken))
  }

  function FlattenCost(msgs: seq<Msg>): nat {
    if msgs == [] then 0 else |ItemsOf(msgs[0])| + 2 + FlattenCost(msgs[1..])
  }

  /** A buffer found to be exhausted is set to nil. */
  function Release(b: Buffer): Buffer {
    if b.Buffer? && b.items == [] && !b.broken then NoBuffer else b
  }

  function ReadOf(b: Buffer): Read {
    if b.NoBuffer? then Done else if b.items == [] then Broken else Got(b.items[0])
  }

  /** No error is among the messages, nor inside one of their iterators. */
  predicate CleanMsgs(msgs: seq<Msg>) {
    forall i :: 0 <= i < |msgs| ==> msgs[i].Batch? && !msgs[i].broken
  }

  /** The messages bring the list, or cut it short where an error is among them. */
  ghost predicate Delivers(msgs: seq<Msg>, list: seq<Id>) {
    Flatten(msgs) <= list && (CleanMsgs(msgs) ==> Flatten(msgs) == list)
  }

  /** `rest` is what is not yet read of the list that the producer works through; errors may cut it
      short.  `size` bounds the steps that reading can take. */
  datatype View = View(rest: seq<Id>, size: nat)

  /** The items at hand: those of the buffer, then those of the messages. */
  function Ahead(buffer: Buffer, source: seq<Msg>): seq<Id> {
    if buffer.NoBuffer? then Flatten(source) else buffer.items + Flatten(source)
  }

  function SizeOf(buffer: Buffer, sourceIsClosed: bool, source: seq<Msg>): nat {
    (if buffer.NoBuffer? then 0 else |buffer.items| + 1) + if sourceIsClosed then 0 else FlattenCost(source) + 1
  }

  predicate Intact(buffer: Buffer, source: seq<Msg>) {
    CleanMsgs(source) && (buffer.Buffer? ==> !buffer.broken)
  }

  /** Asserting this of a view shows the definition of Fits for it, which is of no use elsewhere. */
  predicate UnfoldView(view: View) {
    true
  }

  ghost predicate Fits(view: View, buffer: Buffer, sourceIsClosed: bool, source: seq<Msg>) {
    forall v {:trigger UnfoldView(v)} :: v == view ==> FitsAll(v, buffer, sourceIsClosed, source)
  }

  /** The items at hand begin what is still to come, and are all of it unless an error waits. */
  ghost predicate FitsAll(view: View, buffer: Buffer, sourceIsClosed: bool, source: seq<Msg>) {
    && view.size == SizeOf(buffer, sourceIsClosed, source)
    && (sourceIsClosed ==> source == [])
    && Ahead(buffer, source) <= view.rest
    && (Intact(buffer, source) ==> Ahead(buffer, source) == view.rest)
  }

  lemma FitsTake(view: View, buffer: Buffer, sourceIsClosed: bool, source: seq<Msg>)
    requires Fits(view, buffer, sourceIsClosed, source) && buffer.Buffer? && buffer.items != []
    ensures view.rest != [] && view.rest[0] == buffer.items[0] && view.size > 0
    ensures Fits(View(view.rest[1..], view.size - 1), buffer.(items := buffer.items[1..]), sourceIsClosed, source)
  {
    assert UnfoldView(view);
    DropHead(buffer.items, Flatten(source));
    assert FitsAll(View(view.rest[1..], view.size - 1), buffer.(items := buffer.items[1..]), sourceIsClosed, source);
  }

  lemma FitsRelease(view: View, buffer: Buffer, sourceIsClosed: bool, source: seq<Msg>)
    requires Fits(view, buffer, sourceIsClosed, source) && buffer.Buffer? && buffer.items == [] && !buffer.broken
    ensures view.size > 0 && Fits(view.(size := view.size - 1), NoBuffer, sourceIsClosed, source)
  {
    assert UnfoldView(view);
    assert [] + Flatten(source) == Flatten(source);
    assert FitsAll(view.(size := view.size - 1), NoBuffer, sourceIsClosed, source);
  }

  lemma FitsClose(view: View)
    requires Fits(view, NoBuffer, false, [])
    ensures view.rest == [] && Fits(View([], 0), NoBuffer, true, [])
  {
    assert UnfoldView(view);
    assert FitsAll(View([], 0), NoBuffer, true, []);
  }

  lemma FitsDone(view: View, source: seq<Msg>)
    requires Fits(view, NoBuffer, true, source)
    ensures view.rest == []
  {
    assert UnfoldView(view);
  }

  lemma CleanFirst(msgs: seq<Msg>)
    requires msgs != []
    ensures CleanMsgs(msgs) <==> msgs[0].Batch? && !msgs[0].broken && CleanMsgs(msgs[1..])
  {
    assert msgs == [msgs[0]] + msgs[1..];
  }

  lemma FitsFetch(view: View, source: seq<Msg>)
    requires Fits(view, NoBuffer, false, source) && source != [] && source[0].Batch?
    ensures view.size > 0
    ensures Fits(view.(size := view.size - 1), Buffer(source[0].items, source[0].broken), false, source[1..])
  {
    assert UnfoldView(view);
    FlattenFirst(source);
    CleanFirst(source);
    assert FitsAll(view.(size := view.size - 1), Buffer(source[0].items, source[0].broken), false, source[1..]);
  }

  lemma FitsFail(view: View, source: seq<Msg>)
    requires Fits(view, NoBuffer, false, source) && source != [] && source[0].Failed?
    ensures view.size > 1
    ensures Fits(View(Flatten(source[1..]), view.size - 2), NoBuffer, false, source[1..])
  {
    assert UnfoldView(view);
    FlattenFirst(source);
    assert FitsAll(View(Flatten(source[1..]), view.size - 2), NoBuffer, false, source[1..]);
  }

  lemma SkipOneMore(was: seq<Id>, now: seq<Id>, k: nat, target: Id)
    requires SkippedBelow(was, now, k, target) && now != [] && now[0] < target
    ensures SkippedBelow(was, now[1..], k + 1, target)
  {
    assert now[0] == was[k];
  }

  class Stream {
    const idx: nat
    var buffer: Buffer
    var sourceIsClosed: bool
    /** The messages the channel has still to deliver before it is closed. */
    var source: seq<Msg>

    /** What is still to come, kept up to date by every method. */
    ghost var view: View

    ghost predicate Valid()
      reads this
    {
      Fits(view, buffer, sourceIsClosed, source)
    }

    constructor (idx: nat, source: seq<Msg>, ghost list: seq<Id>)
      requires Delivers(source, list)
      ensures this.idx == idx && this.source == source && buffer == NoBuffer && !sourceIsClosed
      ensures Valid() && view.rest == list
    {
      this.idx, this.source, buffer, sourceIsClosed := idx, source, NoBuffer, false;
      view := View(list, FlattenCost(source) + 1);
      assert FitsAll(View(list, FlattenCost(source) + 1), NoBuffer, false, source);
    }

    /** No read of this stream will end in an error. */
    ghost predicate Clean()
      reads this
    {
      Intact(buffer, source)
    }

    predicate IsDone()
      reads this
    {
      sourceIsClosed && buffer.NoBuffer?
    }

    method Head() returns (r: Read)
      requires Valid()
      modifies this`buffer, this`view
      ensures Valid() && buffer == Release(old(buffer)) && r == ReadOf(buffer)
      ensures view.rest == old(view.rest) && view.size <= old(view.size)
      ensures if buffer == old(buffer) then view == old(view) else view.size < old(view.size)
      ensures r.Got? ==> view.rest != [] && r.item == view.rest[0]
    {
      if buffer.NoBuffer? {
        return Done;
      }
      if buffer.items == [] {
        if buffer.broken {
          return Broken;
        }
        FitsRelease(view, buffer, sourceIsClosed, source);
        buffer, view := NoBuffer, view.(size := view.size - 1);
        return Done;
      }
      FitsTake(view, buffer, sourceIsClosed, source);
      return Got(buffer.items[0]);
    }

    method Next() returns (r: Read)
      requires Valid()
      modifies this`buffer, this`view
      ensures Valid() && r == ReadOf(Release(old(buffer)))
      ensures buffer == if r.Got? then old(buffer).(items := old(buffer).items[1..]) else Release(old(buffer))
      ensures r.Got? ==>
                && old(view.rest) != [] && r.item == old(view.rest)[0] && view.rest == old(view.rest)[1..]
                && view.size < old(view.size)
      ensures !r.Got? ==> view.rest == old(view.rest) && view.size <= old(view.size)
      ensures buffer != old(buffer) ==> view.size < old(view.size)
    {
      if buffer.NoBuffer? {
        return Done;
      }
      if buffer.items == [] {
        if buffer.broken {
          return Broken;
        }
        FitsRelease(view, buffer, sourceIsClosed, source);
        buffer, view := NoBuffer, view.(size := view.size - 1);
        return Done;
      }
      FitsTake(view, buffer, sourceIsClosed, source);
      r := Got(buffer.items[0]);
      buffer, view := buffer.(items := buffer.items[1..]), View(view.rest[1..], view.size - 1);
    }

    /** Moves within the current buffer only: it stops at the first item not below the target or
        when the buffer runs out, and never polls the source.  `k` items are skipped. */
    method SkipToTargetObject(target: Id) returns (ok: bool, ghost k: nat)
      requires Valid()
      modifies this`buffer, this`view
      ensures Valid() && view.size <= old(view.size)
      ensures ok ==> target > 0
      ensures SkippedBelow(old(view.rest), view.rest, k, target)
      ensures target > 0 ==>
                && buffer == SkipBuffer(old(buffer), target)
                && (ok <==> buffer.NoBuffer? || buffer.items != [])
      ensures target == 0 ==> buffer == old(buffer)
      ensures buffer != old(buffer) ==> view.size < old(view.size)
    {
      k := 0;
      if target == 0 {
        return false, 0;
      }
      var t := this.Head();
      while t.Got? && t.item < target
        invariant Valid() && view.size <= old(view.size)
        invariant SkipBuffer(buffer, target) == SkipBuffer(old(buffer), target)
        invariant buffer == Release(buffer) && t == ReadOf(buffer)
        invariant SkippedBelow(old(view.rest), view.rest, k, target)
        invariant t.Got? ==> view.rest != [] && t.item == view.rest[0]
        invariant buffer != old(buffer) ==> view.size < old(view.size)
        decreases view.size
      {
        SkipOneMore(old(view.rest), view.rest, k, target);
        k := k + 1;
        var _ := this.Next();
        t := this.Head();
      }
      assert SkipBuffer(buffer, target) == buffer;
      ok := !t.Broken?;
    }

    method Drain() returns (items: seq<Id>, ok: bool)
      requires Valid()
      modifies this`buffer, this`view
      ensures Valid() && view.size <= old(view.size)
      ensures old(view.rest) == items + view.rest
      ensures old(Clean()) ==> Clean() && ok
      ensures ok ==> buffer == NoBuffer
      ensures ok && old(buffer) != NoBuffer ==> view.size < old(view.size)
    {
      items, ok := [], true;
      var r := Got(0);
      while r.Got?
        invariant Valid() && view.size <= old(view.size)
        invariant old(view.rest) == items + view.rest
        invariant old(Clean()) ==> Clean() && !r.Broken?
        invariant buffer == old(buffer) || view.size < old(view.size)
        invariant r.Done? ==> buffer == NoBuffer
        decreases r.Got?, view.size
      {
        ghost var unread := view.rest;
        r := this.Next();
        if r.Got? {
          ShiftHead(items, unread);
          items := items + [r.item];
        }
      }
      ok := r.Done?;
    }

    /** Polls the source for a batch.  Only an error leaves behind what the producer did not send. */
    method FetchSource() returns (ok: bool)
      requires Valid()
      modifies this
      ensures Valid() && view.size <= old(view.size)
      ensures ok ==> view.rest == old(view.rest) && (buffer.Buffer? || sourceIsClosed)
      ensures ok && IsDone() ==> view.rest == []
      ensures old(Clean()) ==> Clean() && ok
      ensures old(buffer).Buffer? || old(sourceIsClosed) ==> ok && buffer == old(buffer)
    {
      if buffer.Buffer? || sourceIsClosed {
        if IsDone() {
          FitsDone(view, source);
        }
        return true;
      }
      if source == [] {
        FitsClose(view);
        sourceIsClosed, view := true, View([], 0);
        return true;
      }
      var i := source[0];
      if i.Failed? {
        FitsFail(view, source);
        source, view := source[1..], View(Flatten(source[1..]), view.size - 2);
        return false;
      }
      FitsFetch(view, source);
      buffer, source, view := Buffer(i.items, i.broken), source[1..], view.(size := view.size - 1);
      return true;
    }
  }

  predicate Distinct(ss: seq<Stream>) {
    forall i, j :: 0 <= i < j < |ss| ==> ss[i] != ss[j]
  }

  /** The streams that are not exhausted, in their original order. */
  function Remaining(ss: seq<Stream>): (r: seq<Stream>)
    reads ss
    ensures forall s :: s in ss ==> (s in r <==> !s.IsDone())
    ensures forall s :: s in r ==> s in ss
    ensures |r| <= |ss|
    ensures |r| == |ss| ==> r == ss
    ensures Distinct(ss) ==> Distinct(r)
  {
    if ss == [] then []
    else
      var last := ss[|ss| - 1];
      var r := Remaining(ss[..|ss| - 1]);
      assert ss == ss[..|ss| - 1] + [last];
      if last.IsDone() then r else r + [last]
  }

  lemma {:induction false} SomeStreamIsDone(ss: seq<Stream>)
    requires |Remaining(ss)| < |ss|
    ensures exists s :: s in ss && s.IsDone()
  {
    var last := ss[|ss| - 1];
    if !last.IsDone() {
      SomeStreamIsDone(ss[..|ss| - 1]);
      var s :| s in ss[..|ss| - 1] && s.IsDone();
      assert s in ss;
    }
  }

  class Group {
    var streams: seq<Stream>
    /** The members of `streams`. */
    ghost var live: set<Stream>

    constructor (streams: seq<Stream>)
      requires Distinct(streams) && forall s :: s in streams ==> s.Valid()
      ensures this.streams == streams && live == SetOf(streams) && Valid()
    {
      this.streams := streams;
      live := SetOf(streams);
    }

    ghost predicate Valid()
      reads this, live
    {
      Distinct(streams) && live == SetOf(streams) && forall s :: s in live ==> s.Valid()
    }

    /** A stream has lost nothing, and is as clean as it was. */
    twostate predicate Kept(s: Stream)
      reads s
    {
      s.view.rest == old(s.view.rest) && s.view.size <= old(s.view.size) && (old(s.Clean()) ==> s.Clean())
    }

    /** Gives every stream a buffer if its source still has a batch. */
    method FetchAll() returns (ok: bool)
      requires Valid()
      modifies live
      ensures Valid()
      ensures forall s :: s in live ==> s.view.size <= old(s.view.size)
      ensures ok ==> forall s :: s in live ==> s.view.rest == old(s.view.rest)
      ensures ok ==> forall s :: s in live ==> s.buffer.Buffer? || (s.IsDone() && s.view.rest == [])
      ensures forall s :: s in live && old(s.Clean()) ==> s.Clean()
      ensures (forall s :: s in live ==> old(s.Clean())) ==> ok
    {
      for i := 0 to |streams|
        invariant Valid()
        invariant forall s :: s in live ==> Kept(s)
        invariant forall j :: 0 <= j < i ==>
                    streams[j].buffer.Buffer? || (streams[j].IsDone() && streams[j].view.rest == [])
      {
        assert streams[i] in live;
        var fetched := streams[i].FetchSource();
        if !fetched {
          return false;
        }
      }
      return true;
    }

    /** Fetches, then drops the exhausted streams. */
    method CleanDone() returns (ok: bool)
      requires Valid()
      modifies this, live
      ensures Valid()
      ensures forall s :: s in old(live) ==> s.Valid() && s.view.size <= old(s.view.size)
      ensures ok ==> forall s :: s in old(live) ==> s.view.rest == old(s.view.rest)
      ensures ok ==> forall s :: s in old(live) - live ==> s.IsDone() && s.view.rest == []
      ensures ok ==> streams == Remaining(old(streams)) && live == set s | s in old(live) && !s.IsDone()
      ensures ok ==> forall s :: s in live ==> s.buffer.Buffer?
      ensures !ok ==> streams == old(streams) && live == old(live)
      ensures forall s :: s in old(live) && old(s.Clean()) ==> s.Clean()
      ensures (forall s :: s in old(live) ==> old(s.Clean())) ==> ok
    {
      ok := FetchAll();
      if ok {
        DropDone();
      }
    }

    method DropDone()
      requires Valid()
      modifies this
      ensures Valid()
      ensures streams == Remaining(old(streams)) && live == set s | s in old(live) && !s.IsDone()
    {
      streams := Remaining(streams);
      live := set s | s in live && !s.IsDone();
    }
  }

  ghost function SetOf(ss: seq<Stream>): set<Stream> {
    set s | s in ss
  }
}
