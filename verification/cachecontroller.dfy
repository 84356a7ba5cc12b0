/** Invalidation of cached iterators (cache_controller.go), and the cached reads that consult it
    (cached_datastore.go), for one store.

    The controller reads the newest page of the changelog and writes invalidation records; a cached
    iterator is served only if no record is newer than it.  Records are never evicted, and a cached
    iterator holds what the store held when it was kept. */
module CacheController {
  import opened Options

  type Time = nat

  const DEFAULT_PAGE_SIZE: nat := 50

  /** What a record can be about: the tuples of an object and relation, or those of a user on a type. */
  datatype WatchKey =
    | ByObjectRelation(obj: string, relation: string)
    | ByUserAndObjectType(user: string, objectType: string)

  datatype Change = Change(time: Time, obj: string, relation: string, user: string, objectType: string)
  {
    function Keys(): set<WatchKey> {
      {ByObjectRelation(obj, relation), ByUserAndObjectType(user, objectType)}
    }
  }

  /** A cached iterator and the keys of the records that invalidate it. */
  datatype IteratorEntry = IteratorEntry(lastModified: Time, watches: set<WatchKey>)

  datatype Record = Record(lastModified: Time, until: Time)

  type CacheKey = nat

  predicate LiveEntry(c: IteratorEntry, ttl: Time, now: Time) {
    now < c.lastModified + ttl
  }

  /** A record for `k` that has not expired is newer than `lastModified`. */
  predicate Revoked(records: map<WatchKey, Record>, k: WatchKey, lastModified: Time, now: Time) {
    k in records && now < records[k].until && lastModified < records[k].lastModified
  }

  /** Some record is newer than the entry. */
  predicate IsInvalidAt(c: IteratorEntry, records: map<WatchKey, Record>, storeRecord: Option<Time>, now: Time) {
    || (storeRecord.Some? && c.lastModified < storeRecord.value)
    || exists k | k in c.watches :: Revoked(records, k, c.lastModified, now)
  }

  /** Every live entry that watches `k` and is older than `time` is invalid. */
  predicate Covered(entries: map<CacheKey, IteratorEntry>, records: map<WatchKey, Record>, storeRecord: Option<Time>,
                    ttl: Time, now: Time, time: Time, k: WatchKey) {
    forall i | i in entries ::
      LiveEntry(entries[i], ttl, now) && k in entries[i].watches && entries[i].lastModified < time ==>
        IsInvalidAt(entries[i], records, storeRecord, now)
  }

  predicate Increasing(log: seq<Change>) {
    && (forall i, j | 0 <= i < j < |log| :: log[i].time < log[j].time)
    && forall i | 0 <= i < |log| :: log[i].time > 0
  }

  /** The newest changes first, one page of them. */
  function Page(log: seq<Change>): (page: seq<Change>)
    ensures |page| == if |log| < DEFAULT_PAGE_SIZE then |log| else DEFAULT_PAGE_SIZE
    ensures forall i :: 0 <= i < |page| ==> page[i] == log[|log| - 1 - i]
  {
    seq(if |log| < DEFAULT_PAGE_SIZE then |log| else DEFAULT_PAGE_SIZE,
        i requires 0 <= i < (if |log| < DEFAULT_PAGE_SIZE then |log| else DEFAULT_PAGE_SIZE) => log[|log| - 1 - i])
  }

  /** The deletions of a flush leave every other entry of the cache as invalid as it was. */
  predicate Harmless(key: CacheKey, watches: set<WatchKey>, entries: map<CacheKey, IteratorEntry>,
                     records: map<WatchKey, Record>,
                     storeRecord: Option<Time>, ttl: Time, now: Time) {
    forall i | i in entries && i != key :: StaysInvalid(entries[i], watches, records, storeRecord, ttl, now)
  }

  /** An entry that is invalid and could still be served is so without the deleted records. */
  predicate StaysInvalid(c: IteratorEntry, watches: set<WatchKey>, records: map<WatchKey, Record>,
                         storeRecord: Option<Time>,
                         ttl: Time, now: Time) {
    LiveEntry(c, ttl, now) && IsInvalidAt(c, records, storeRecord, now) ==>
        IsInvalidAt(c, records - watches, storeRecord, now)
  }

  /** No deleted record that has not expired is newer than the one of the store, unless every entry that it
      is newer than has expired. */
  predicate SafeToDelete(watches: set<WatchKey>, records: map<WatchKey, Record>, storeRecord: Option<Time>, ttl: Time,
                         now: Time) {
    forall k | k in watches && k in records && now < records[k].until ::
      || (storeRecord.Some? && records[k].lastModified <= storeRecord.value)
      || records[k].lastModified == 0
      || records[k].lastModified + ttl <= now + 1
  }

  /** A flush is harmless whatever else the cache holds, if and only if each of the records it deletes is
      safe to delete. */
  lemma HarmlessIffSafe(watches: set<WatchKey>, records: map<WatchKey, Record>, storeRecord: Option<Time>, ttl: Time,
                        now: Time)
    ensures (forall c: IteratorEntry :: StaysInvalid(c, watches, records, storeRecord, ttl, now)) <==>
            SafeToDelete(watches, records, storeRecord, ttl, now)
  {
    if SafeToDelete(watches, records, storeRecord, ttl, now) {
      forall c: IteratorEntry ensures StaysInvalid(c, watches, records, storeRecord, ttl, now) {
        SafeStaysInvalid(c, watches, records, storeRecord, ttl, now);
      }
    } else {
      var k :| k in watches && k in records && now < records[k].until && records[k].lastModified > 0
               && (storeRecord.Some? ==> storeRecord.value < records[k].lastModified)
               && now + 1 < records[k].lastModified + ttl;
      var c := IteratorEntry(records[k].lastModified - 1, {k});
      assert Revoked(records, k, c.lastModified, now);
      assert !StaysInvalid(c, watches, records, storeRecord, ttl, now);
    }
  }

  lemma SafeStaysInvalid(c: IteratorEntry, watches: set<WatchKey>, records: map<WatchKey, Record>,
                         storeRecord: Option<Time>,
                         ttl: Time, now: Time)
    requires SafeToDelete(watches, records, storeRecord, ttl, now)
    ensures StaysInvalid(c, watches, records, storeRecord, ttl, now)
  {
    if LiveEntry(c, ttl, now) && IsInvalidAt(c, records, storeRecord, now) &&
        !(storeRecord.Some? && c.lastModified < storeRecord.value) {
      var k :| k in c.watches && Revoked(records, k, c.lastModified, now);
      assert k !in watches;
      assert Revoked(records - watches, k, c.lastModified, now);
    }
  }

  /** A newer record in place of an older one covers what the older one did. */
  lemma StaysCovered(entries: map<CacheKey, IteratorEntry>, was: map<WatchKey, Record>, records: map<WatchKey, Record>,
                     storeRecord: Option<Time>, ttl: Time, now: Time, time: Time, covered: WatchKey, k: WatchKey)
    requires Covered(entries, was, storeRecord, ttl, now, time, covered)
    requires k in records && records == was[k := records[k]] && now + ttl <= records[k].until
    requires k in was ==> was[k].lastModified <= records[k].lastModified
    requires forall i :: i in entries ==> entries[i].lastModified <= now
    ensures Covered(entries, records, storeRecord, ttl, now, time, covered)
  {
    forall i | i in entries && LiveEntry(entries[i], ttl, now) && IsInvalidAt(entries[i], was, storeRecord, now)
      ensures IsInvalidAt(entries[i], records, storeRecord, now)
    {
      if j :| j in entries[i].watches && Revoked(was, j, entries[i].lastModified, now) {
        assert Revoked(records, j, entries[i].lastModified, now);
      }
    }
  }

  /** One step of other requests. */
  datatype Event =
    | Elapse(time: Time)
    | Write(obj: string, relation: string, user: string, objectType: string)
    | Keep(key: CacheKey, watches: set<WatchKey>)
    | Look(key: CacheKey)
    | Ask

  /** All changes of the page are younger than any iterator can be. */
  predicate AllYoung(page: seq<Change>, now: Time, ttl: Time)
    requires page != []
  {
    page[|page| - 1].time > now - ttl
  }

  /** The keys of the changes after `limit`. */
  ghost function KeysAfter(page: seq<Change>, limit: int): (keys: set<WatchKey>)
    ensures forall k :: k in keys <==> exists i :: 0 <= i < |page| && page[i].time > limit && k in page[i].Keys()
  {
    set i, k | 0 <= i < |page| && page[i].time > limit && k in page[i].Keys() :: k
  }

  /** The records of `keys` have been replaced, and no others. */
  ghost predicate Replaced(was: map<WatchKey, Record>, records: map<WatchKey, Record>, keys: set<WatchKey>, r: Record) {
    records.Keys == was.Keys + keys && forall k :: k in records ==> records[k] == if k in keys then r else was[k]
  }

  lemma ReplacedAgain(was: map<WatchKey, Record>, between: map<WatchKey, Record>, records: map<WatchKey, Record>,
                      t: Change, page: seq<Change>, r: Record)
    requires Replaced(was, between, KeysAfter(page, -1), r) && Replaced(between, records, t.Keys(), r)
    ensures Replaced(was, records, KeysAfter([t] + page, -1), r)
  {
    KeysOfOneMore(t, page);
  }

  lemma KeysOfOneMore(t: Change, page: seq<Change>)
    ensures KeysAfter([t] + page, -1) == t.Keys() + KeysAfter(page, -1)
  {
    var more := [t] + page;
    forall k ensures k in KeysAfter(more, -1) <==> k in t.Keys() + KeysAfter(page, -1) {
      if k in t.Keys() {
        assert more[0] == t;
      } else if i :| 0 <= i < |page| && page[i].time > -1 && k in page[i].Keys() {
        assert more[i + 1] == page[i];
      }
    }
  }

  /** The record has not expired. */
  predicate IsLive(r: Option<Record>, now: Time) {
    r.Some? && now < r.value.until
  }

  datatype RunResult = TimedOut | ReadFailed | Completed

  /** How the read of the changelog goes: it returns a page, takes too long, or fails. */
  datatype ReadFate = Returns | TakesTooLong | Breaks

  predicate UnfoldAt(time: Time) { true }

  class Controller {
    const ttl: Time
    const iteratorCacheTTL: Time
    var now: Time
    var log: seq<Change>
    var entries: map<CacheKey, IteratorEntry>
    var records: map<WatchKey, Record>
    var storeRecord: Option<Time>
    /** The newest change that a run has dealt with, and until when that is remembered. */
    var changelogEntry: Option<Record>
    var inflight: bool
    /** What other requests do while a run is suspended. */
    var events: seq<Event>
    /** The changes, with a key each, that the records cover. */
    ghost var handled: set<(Change, WatchKey)>
    /** No flush so far has done harm to another entry. */
    ghost var spared: bool

    /** Every change up to `time` is handled. */
    ghost predicate HandledUpTo(time: Time)
      reads this`log, this`handled
    {
      forall i, k :: 0 <= i < |log| && log[i].time <= time && k in log[i].Keys() ==> (log[i], k) in handled
    }

    /** The invariant is long, so a method sees it only where it asserts UnfoldAt of the present time. */
    ghost predicate Valid()
      reads this`now, this`log, this`entries, this`records, this`storeRecord, this`changelogEntry, this`handled,
            this`spared
    {
      forall t {:trigger UnfoldAt(t)} :: t == now ==> IsConsistent()
    }

    ghost predicate IsConsistent()
      reads this`now, this`log, this`entries, this`records, this`storeRecord, this`changelogEntry, this`handled,
            this`spared
    {
      && Increasing(log) && (forall i :: 0 <= i < |log| ==> log[i].time <= now)
      && (forall k :: k in records ==>
         records[k].lastModified <= now && records[k].lastModified + iteratorCacheTTL <= records[k].until)
      && (storeRecord.Some? ==> storeRecord.value <= now)
      && (forall i :: i in entries ==> entries[i].lastModified <= now)
      && (changelogEntry.Some? ==>
         changelogEntry.value.lastModified <= now && HandledUpTo(changelogEntry.value.lastModified))
      && (forall h :: h in handled ==> h.0.time <= now)
      && (spared ==> forall h :: h in handled ==>
         Covered(entries, records, storeRecord, iteratorCacheTTL, now, h.0.time, h.1))
    }

    constructor (ttl: Time, iteratorCacheTTL: Time, now: Time, events: seq<Event>)
      ensures Valid() && handled == {} && spared && this.ttl == ttl && this.iteratorCacheTTL == iteratorCacheTTL
      ensures this.now == now && log == [] && entries == map[] && records == map[] && storeRecord == None &&
              changelogEntry == None
      ensures !inflight && this.events == events
    {
      this.ttl, this.iteratorCacheTTL, this.now, this.events := ttl, iteratorCacheTTL, now, events;
      log, entries, records, storeRecord, changelogEntry, inflight, handled := [], map[], map[], None, None, false, {};
      spared := true;
      new;
      assert IsConsistent();
    }

    // ----- what other requests do

    method Tick(time: Time)
      requires Valid()
      modifies this`now
      ensures Valid() && now == if time > old(now) then time else old(now)
    {
      assert UnfoldAt(now);
      if time > now {
        now := time;
        assert IsConsistent();
      }
    }

    /** The store takes a write and logs it. */
    method WriteTuple(obj: string, relation: string, user: string, objectType: string)
      requires Valid()
      modifies this`now, this`log
      ensures Valid() && now == old(now) + 1 && log == old(log) + [Change(now, obj, relation, user, objectType)]
    {
      assert UnfoldAt(now);
      now := now + 1;
      log := log + [Change(now, obj, relation, user, objectType)];
      assert IsConsistent();
    }

    /** Serves a cached iterator unless it has expired or a record is newer.  As long as no flush has done
        harm, what is served misses no handled change. */
    method FindInCache(key: CacheKey) returns (hit: Option<IteratorEntry>)
      requires Valid()
      modifies this`entries
      ensures Valid()
      ensures hit.Some? <==>
        && key in old(entries) && LiveEntry(old(entries)[key], iteratorCacheTTL, now)
        && !IsInvalidAt(old(entries)[key], records, storeRecord, now)
      ensures hit.Some? ==> hit.value == old(entries)[key]
      ensures spared && hit.Some? ==> forall h :: h in handled && h.1 in hit.value.watches ==>
              h.0.time <= hit.value.lastModified
      ensures entries == if hit.None? then old(entries) - {key} else old(entries)
    {
      assert UnfoldAt(now);
      if key !in entries {
        return None;
      }
      var c := entries[key];
      if !LiveEntry(c, iteratorCacheTTL, now) || IsInvalidAt(c, records, storeRecord, now) {
        entries := entries - {key};
        return None;
      }
      hit := Some(c);
    }

    /** Keeps a fully read iterator, and deletes the records it watches. */
    method Flush(key: CacheKey, watches: set<WatchKey>)
      requires Valid()
      modifies this`entries, this`records, this`spared
      ensures Valid()
      ensures entries == old(entries)[key := IteratorEntry(now, watches)] && records == old(records) - watches
      ensures spared == old(spared && Harmless(key, watches, entries, records, storeRecord, iteratorCacheTTL, now))
      ensures old(spared && SafeToDelete(watches, records, storeRecord, iteratorCacheTTL, now)) ==> spared
    {
      assert UnfoldAt(now);
      HarmlessIffSafe(watches, records, storeRecord, iteratorCacheTTL, now);
      spared := spared && Harmless(key, watches, entries, records, storeRecord, iteratorCacheTTL, now);
      entries := entries[key := IteratorEntry(now, watches)];
      records := records - watches;
    }

    /** The run is suspended, and other requests take some steps. */
    method Suspend()
      requires Valid() && inflight
      modifies this`now, this`log, this`entries, this`records, this`events, this`spared, this`inflight
      ensures Valid() && inflight && now >= old(now) && old(log) <= log
      ensures forall k :: k in records ==> k in old(records) && records[k] == old(records)[k]
      ensures old(events) == [] ==> Undisturbed() && records == old(records)
    {
      var resumes := *;
      while events != [] && !resumes
        invariant Valid() && inflight && now >= old(now) && old(log) <= log
        invariant forall k :: k in records ==> k in old(records) && records[k] == old(records)[k]
        invariant old(events) == [] ==> Undisturbed() && records == old(records)
        decreases |events|
      {
        var event := events[0];
        events := events[1..];
        Take(event);
        resumes := *;
      }
    }

    /** No other request did anything. */
    twostate predicate Undisturbed()
      reads this
    {
      && now == old(now) && log == old(log) && entries == old(entries) && spared == old(spared)
      && events == old(events)
    }

    /** What a run does if no other request does anything meanwhile: all cached iterators are revoked if the whole
        page is young, and otherwise those that the young changes of the page concern. */
    twostate predicate RunsAlone(result: RunResult)
      reads this
    {
      && Undisturbed()
      && match result
         case TimedOut =>
           records == old(records) && storeRecord == old(storeRecord) && changelogEntry == old(changelogEntry)
         case ReadFailed =>
           records == old(records) && storeRecord == Some(now) && changelogEntry == old(changelogEntry)
         case Completed =>
           && log != []
           && Completes(Page(log),
                        if IsLive(old(changelogEntry), now) then old(changelogEntry).value.lastModified else 0)
    }

    /** The newest change is remembered, and its page is dealt with if it is news. */
    twostate predicate Completes(page: seq<Change>, lastInvalidation: Time)
      requires page != []
      reads this
    {
      && changelogEntry == Some(Record(page[0].time, now + ttl))
      && if page[0].time > lastInvalidation then Revokes(page, now)
         else records == old(records) && storeRecord == old(storeRecord)
    }

    twostate predicate Revokes(page: seq<Change>, time: Time)
      requires page != []
      reads this`records, this`storeRecord
    {
      if AllYoung(page, time, iteratorCacheTTL) then records == old(records) && storeRecord == Some(time)
      else && storeRecord == old(storeRecord)
           && Replaced(old(records), records, KeysAfter(page, time - iteratorCacheTTL),
                       Record(time, time + iteratorCacheTTL))
    }

    method Take(event: Event)
      requires Valid() && inflight
      modifies this`now, this`log, this`entries, this`records, this`spared, this`inflight
      ensures Valid() && inflight && now >= old(now) && old(log) <= log
      ensures forall k :: k in records ==> k in old(records) && records[k] == old(records)[k]
    {
      match event
      case Elapse(time) => Tick(time);
      case Write(obj, relation, user, objectType) => WriteTuple(obj, relation, user, objectType);
      case Keep(key, watches) => Flush(key, watches);
      case Look(key) =>
        var hit := FindInCache(key);
      case Ask =>
        var mine := Claim();
        assert !mine;
    }

    /** Claims the one place of a run, unless it is taken. */
    method Claim() returns (mine: bool)
      modifies this`inflight
      ensures inflight && mine == !old(inflight)
    {
      mine := !inflight;
      inflight := true;
    }

    // ----- the three writers of invalidation records

    method InvalidateIteratorCache()
      requires Valid()
      modifies this`storeRecord
      ensures Valid() && storeRecord == Some(now)
    {
      assert UnfoldAt(now);
      storeRecord := Some(now);
    }

    method InvalidateByKey(change: Change, k: WatchKey, ts: Time)
      requires Valid() && change.time <= ts <= now && k in change.Keys()
      requires forall k :: k in records ==> records[k].lastModified <= ts
      modifies this`records, this`handled
      ensures Valid() && handled == old(handled) + {(change, k)}
      ensures records == old(records)[k := Record(ts, now + iteratorCacheTTL)]
    {
      assert UnfoldAt(now);
      ghost var was := records;
      records := records[k := Record(ts, now + iteratorCacheTTL)];
      forall h | spared && h in handled
        ensures Covered(entries, records, storeRecord, iteratorCacheTTL, now, h.0.time, h.1)
      {
        StaysCovered(entries, was, records, storeRecord, iteratorCacheTTL, now, h.0.time, h.1, k);
      }
      handled := handled + {(change, k)};
    }

    // ----- a run

    /** Finds the changes since the last run and writes the records they call for.  A run that completes
        has handled every change that was logged before it; after a failed read no iterator kept earlier is
        served. */
    method FindChangesAndInvalidateIfNecessary(fate: ReadFate) returns (result: RunResult)
      requires Valid() && inflight
      modifies this`now, this`log, this`entries, this`records, this`events, this`spared, this`inflight,
               this`storeRecord, this`changelogEntry, this`handled
      ensures Valid() && inflight && old(log) <= log && old(handled) <= handled
      ensures old(events) == [] ==> RunsAlone(result)
      ensures result.TimedOut? <==> fate.TakesTooLong?
      ensures fate.Breaks? ==> result.ReadFailed?
      ensures fate.Returns? && old(log) != [] ==> result.Completed?
      ensures result.TimedOut? ==> storeRecord == old(storeRecord) && changelogEntry == old(changelogEntry)
      ensures result.ReadFailed? ==> storeRecord == Some(now) && changelogEntry == old(changelogEntry)
      ensures result.Completed? ==> changelogEntry.Some?
      ensures result.Completed? ==> forall i, k :: 0 <= i < |old(log)| && k in old(log)[i].Keys() ==>
              (old(log)[i], k) in handled
    {
      var lastInvalidation := 0;
      if changelogEntry.Some? && now < changelogEntry.value.until {
        lastInvalidation := changelogEntry.value.lastModified;
      }
      Suspend();
      if fate.TakesTooLong? {
        return TimedOut;
      }
      if fate.Breaks? || log == [] {
        InvalidateIteratorCache();
        return ReadFailed;
      }
      var page := Page(log);
      ghost var read := log;
      Suspend();
      assert UnfoldAt(now);
      InvalidateSince(page, read, lastInvalidation);
      result := Completed;
    }

    /** Invalidates unless nothing is new, and remembers the newest change. */
    method InvalidateSince(page: seq<Change>, ghost read: seq<Change>, lastInvalidation: Time)
      requires Valid() && inflight && read != [] && read <= log && page == Page(read)
      requires lastInvalidation > 0 ==> changelogEntry.Some? && lastInvalidation == changelogEntry.value.lastModified
      modifies this`now, this`log, this`entries, this`records, this`events, this`spared, this`inflight,
               this`storeRecord, this`changelogEntry, this`handled
      ensures Valid() && inflight && old(log) <= log && old(handled) <= handled
      ensures old(events) == [] ==> Undisturbed() && Completes(page, lastInvalidation)
      ensures page[0].time > lastInvalidation ==>
                storeRecord == if AllYoung(page, old(now), iteratorCacheTTL) then Some(old(now)) else old(storeRecord)
      ensures changelogEntry == Some(Record(page[0].time, now + ttl))
      ensures forall i, k :: 0 <= i < |read| && k in read[i].Keys() ==> (read[i], k) in handled
      ensures page[0].time <= lastInvalidation ==> records == old(records) && storeRecord == old(storeRecord)
    {
      if page[0].time > lastInvalidation {
        InvalidateChanges(page, read);
      }
      assert UnfoldAt(now);
      ReadIsHandled(read, page[0].time);
      changelogEntry := Some(Record(page[0].time, now + ttl));
    }

    /** All that was read has been handled. */
    lemma ReadIsHandled(read: seq<Change>, newest: Time)
      requires Valid() && read != [] && read <= log && newest == read[|read| - 1].time && HandledUpTo(newest)
      ensures forall i, k :: 0 <= i < |read| && k in read[i].Keys() ==> (read[i], k) in handled
    {
      assert UnfoldAt(now);
      forall i, k | 0 <= i < |read| && k in read[i].Keys() ensures (read[i], k) in handled {
        assert read[i] == log[i] && log[i].time <= newest;
      }
    }

    method InvalidateChanges(page: seq<Change>, ghost read: seq<Change>)
      requires Valid() && inflight && read != [] && read <= log && page == Page(read)
      modifies this`now, this`log, this`entries, this`records, this`events, this`spared, this`inflight,
               this`storeRecord, this`handled
      ensures Valid() && inflight && old(log) <= log && old(handled) <= handled && HandledUpTo(page[0].time)
      ensures old(events) == [] ==> Undisturbed() && Revokes(page, now)
      ensures storeRecord == if AllYoung(page, old(now), iteratorCacheTTL) then Some(old(now)) else old(storeRecord)
    {
      var lastIteratorInvalidation: int := now - iteratorCacheTTL;
      var idx := |page| - 1;
      while idx >= 0 && page[idx].time <= lastIteratorInvalidation
        invariant -1 <= idx < |page|
        invariant forall i :: idx < i < |page| ==> page[i].time <= lastIteratorInvalidation
      {
        idx := idx - 1;
      }
      if idx == |page| - 1 {
        InvalidateIteratorCache();
        HandleAll(read);
      } else {
        InvalidateYoung(page, read, idx, lastIteratorInvalidation);
      }
    }

    /** The changes after `limit` are `page[..last + 1]`; the others concern no live entry. */
    method InvalidateYoung(page: seq<Change>, ghost read: seq<Change>, last: int, ghost limit: int)
      requires Valid() && inflight && read != [] && read <= log && page == Page(read) && -1 <= last < |page| - 1
      requires limit == now - iteratorCacheTTL
      requires (last >= 0 ==> page[last].time > limit) && forall i :: last < i < |page| ==> page[i].time <= limit
      modifies this`now, this`log, this`entries, this`records, this`events, this`spared, this`inflight, this`handled
      ensures Valid() && inflight && old(log) <= log && old(handled) <= handled && HandledUpTo(page[0].time)
      ensures old(events) == [] ==>
                && Undisturbed()
                && Replaced(old(records), records, KeysAfter(page, limit), Record(now, now + iteratorCacheTTL))
    {
      HandleExpired(limit);
      Descending(page, read, last, limit);
      InvalidateNewest(page, read, last, limit);
    }

    /** The changes up to `last` are the young ones of the page. */
    lemma Descending(page: seq<Change>, read: seq<Change>, last: int, limit: int)
      requires Valid() && read <= log && page == Page(read) && -1 <= last < |page|
      requires (last >= 0 ==> page[last].time > limit) && forall i :: last < i < |page| ==> page[i].time <= limit
      ensures KeysAfter(page, limit) == KeysAfter(page[..last + 1], -1)
    {
      assert UnfoldAt(now);
      forall i | 0 <= i <= last ensures page[i].time > limit && page[i].time > -1 {
        assert page[i] == log[|read| - 1 - i] && page[last] == log[|read| - 1 - last];
      }
      forall k ensures k in KeysAfter(page, limit) <==> k in KeysAfter(page[..last + 1], -1) {
        var young := page[..last + 1];
        if i :| 0 <= i < |page| && page[i].time > limit && k in page[i].Keys() {
          assert young[i] == page[i];
        }
        if i :| 0 <= i < |young| && young[i].time > -1 && k in young[i].Keys() {
          assert young[i] == page[i];
        }
      }
    }

    /** A record for the whole store covers all that is logged. */
    ghost method HandleAll(read: seq<Change>)
      requires Valid() && storeRecord == Some(now) && read <= log
      modifies this`handled
      ensures Valid() && old(handled) <= handled && forall t: Time :: HandledUpTo(t)
    {
      assert UnfoldAt(now);
      handled := handled + set i, k | 0 <= i < |log| && k in log[i].Keys() :: (log[i], k);
    }

    /** No live entry is older than the lifetime of entries. */
    ghost method HandleExpired(limit: int)
      requires Valid() && limit <= now - iteratorCacheTTL
      modifies this`handled
      ensures Valid() && old(handled) <= handled
      ensures forall i, k :: 0 <= i < |log| && log[i].time <= limit && k in log[i].Keys() ==> (log[i], k) in handled
    {
      assert UnfoldAt(now);
      handled := handled + set i, k | 0 <= i < |log| && log[i].time <= limit && k in log[i].Keys() :: (log[i], k);
    }

    /** The changes `page[..idx + 1]`, the oldest of them first; the others have been handled. */
    method InvalidateNewest(page: seq<Change>, ghost read: seq<Change>, last: int, ghost limit: int)
      requires Valid() && inflight && read != [] && read <= log && page == Page(read) && -1 <= last < |page| - 1
      requires forall i :: last < i < |page| ==> page[i].time <= limit
      requires forall i, k :: 0 <= i < |log| && log[i].time <= limit && k in log[i].Keys() ==> (log[i], k) in handled
      modifies this`now, this`log, this`entries, this`records, this`events, this`spared, this`inflight, this`handled
      ensures Valid() && inflight && old(log) <= log && old(handled) <= handled && HandledUpTo(page[0].time)
      ensures old(events) == [] ==>
                && Undisturbed()
                && Replaced(old(records), records, KeysAfter(page[..last + 1], -1), Record(now, now + iteratorCacheTTL))
    {
      assert UnfoldAt(now);
      var lastModified := now;
      var idx := last;
      ghost var done: seq<Change> := [];
      while idx >= 0
        invariant -1 <= idx <= last && Valid() && inflight && lastModified <= now && old(log) <= log &&
                  old(handled) <= handled
        invariant old(events) == [] ==>
                    && Undisturbed()
                    && lastModified == now
                    && Replaced(old(records), records, KeysAfter(done, -1), Record(now, now + iteratorCacheTTL))
        invariant done == page[idx + 1..last + 1]
        invariant forall k :: k in records ==> records[k].lastModified <= lastModified
        invariant forall i, k :: idx < i <= last && k in page[i].Keys() ==> (page[i], k) in handled
      {
        var t := page[idx];
        ghost var was := records;
        assert t == read[|read| - 1 - idx] == log[|read| - 1 - idx] == old(log)[|read| - 1 - idx];
        InvalidateChange(t, lastModified);
        idx := idx - 1;
        if old(events) == [] {
          ReplacedAgain(old(records), was, records, t, done, Record(now, now + iteratorCacheTTL));
        }
        done := [t] + done;
      }
      AllOfPage(page, read, old(log), last, limit);
    }

    /** Revokes what watches the object and relation of a change, and then what watches its user and type. */
    method InvalidateChange(t: Change, ts: Time)
      requires Valid() && inflight && t.time <= ts <= now
      requires forall k :: k in records ==> records[k].lastModified <= ts
      modifies this`now, this`log, this`entries, this`records, this`events, this`spared, this`inflight, this`handled
      ensures Valid() && inflight && now >= old(now) && old(log) <= log && old(handled) <= handled
      ensures old(events) == [] ==>
                Undisturbed() && Replaced(old(records), records, t.Keys(), Record(ts, now + iteratorCacheTTL))
      ensures forall k :: k in t.Keys() ==> (t, k) in handled
      ensures forall k :: k in records ==> records[k].lastModified <= ts
    {
      InvalidateByKey(t, ByObjectRelation(t.obj, t.relation), ts);
      Suspend();
      InvalidateByKey(t, ByUserAndObjectType(t.user, t.objectType), ts);
      Suspend();
    }

    lemma AllOfPage(page: seq<Change>, read: seq<Change>, before: seq<Change>, last: int, limit: int)
      requires Valid() && read != [] && read <= before <= log && page == Page(read) && -1 <= last < |page| - 1
      requires forall i :: last < i < |page| ==> page[i].time <= limit
      requires forall i, k :: 0 <= i < |before| && before[i].time <= limit && k in before[i].Keys() ==>
               (before[i], k) in handled
      requires forall i, k :: 0 <= i <= last && k in page[i].Keys() ==> (page[i], k) in handled
      ensures HandledUpTo(page[0].time)
    {
      assert UnfoldAt(now);
      forall i, k | 0 <= i < |log| && log[i].time <= page[0].time && k in log[i].Keys() ensures (log[i], k) in handled {
        assert page[0] == log[|read| - 1];
        assert i <= |read| - 1;
        if |read| - 1 - i <= last {
          assert page[|read| - 1 - i] == log[i];
        } else {
          assert page[last + 1] == log[|read| - 1 - (last + 1)];
          assert log[i] == before[i];
        }
      }
    }

    /** At most one run at a time: a request that finds one under way does nothing. */
    method InvalidateIfNeeded(fate: ReadFate) returns (result: Option<RunResult>)
      requires Valid()
      modifies this
      ensures Valid() && old(log) <= log && old(handled) <= handled && inflight == old(inflight)
      ensures result.None? <==> old(inflight)
      ensures !old(inflight) && fate.Returns? && old(log) != [] ==> result == Some(Completed)
      ensures old(inflight) ==>
                && Undisturbed() && records == old(records)
                && storeRecord == old(storeRecord) && changelogEntry == old(changelogEntry)
      ensures result == Some(Completed) ==> changelogEntry.Some? && forall i, k ::
                0 <= i < |old(log)| && k in old(log)[i].Keys() ==> (old(log)[i], k) in handled
      ensures result == Some(ReadFailed) ==> storeRecord == Some(now) && changelogEntry == old(changelogEntry)
      ensures result == Some(TimedOut) ==> storeRecord == old(storeRecord) && changelogEntry == old(changelogEntry)
      ensures !old(inflight) ==> (result == Some(TimedOut) <==> fate.TakesTooLong?)
      ensures !old(inflight) && fate.Breaks? ==> result == Some(ReadFailed)
      ensures old(events) == [] && result.Some? ==> RunsAlone(result.value)
    {
      var mine := Claim();
      if !mine {
        return None;
      }
      var r := FindChangesAndInvalidateIfNecessary(fate);
      inflight := false;
      result := Some(r);
    }

    /** The newest change dealt with is remembered, and not for too long. */
    predicate IsFresh()
      reads this`changelogEntry, this`now
    {
      IsLive(changelogEntry, now) && changelogEntry.value.lastModified + ttl > now
    }

    /** The time of the newest change dealt with, if that is fresh, and otherwise the beginning of time, and a run
        that deals with all that was logged.  Every change up to the time returned is handled. */
    method DetermineInvalidationTime(fate: ReadFate) returns (time: Time)
      requires Valid()
      modifies this
      ensures Valid() && old(handled) <= handled && HandledUpTo(time) && inflight == old(inflight)
      ensures old(IsFresh()) ==>
                && time == old(changelogEntry).value.lastModified && Undisturbed() && records == old(records)
                && storeRecord == old(storeRecord) && changelogEntry == old(changelogEntry) && handled == old(handled)
      ensures !old(IsFresh()) ==> time == 0
      ensures !old(IsFresh() || inflight) && fate.Returns? && old(log) != [] ==>
                && changelogEntry.Some?
                && forall i, k :: 0 <= i < |old(log)| && k in old(log)[i].Keys() ==> (old(log)[i], k) in handled
      ensures !old(IsFresh() || inflight) && fate.Breaks? ==> storeRecord == Some(now)
      ensures !old(IsFresh() || inflight) && old(events) == [] ==>
                RunsAlone(if fate.TakesTooLong? then TimedOut
                          else if fate.Breaks? || log == [] then ReadFailed else Completed)
    {
      assert UnfoldAt(now);
      if changelogEntry.Some? && now < changelogEntry.value.until && changelogEntry.value.lastModified + ttl > now {
        return changelogEntry.value.lastModified;
      }
      var result := InvalidateIfNeeded(fate);
      assert UnfoldAt(now);
      time := 0;
    }
  }

  // ----- a flush that does harm

  const DOCUMENT: WatchKey := ByObjectRelation("document:1", "viewer")
  const OLD_CHANGE: Change := Change(1, "document:0", "viewer", "user:0", "document")
  const NEW_CHANGE: Change := Change(201, "document:1", "viewer", "user:1", "document")

  /** Two cached reads of one object and relation, and a change of it after them. */
  method ReadTwice() returns (c: Controller)
    ensures fresh(c) && c.Valid() && !c.inflight && c.events == [] && c.iteratorCacheTTL == 100
    ensures c.now == 201 && c.log == [OLD_CHANGE, NEW_CHANGE] && c.storeRecord == None && c.changelogEntry == None
    ensures 1 in c.entries && c.entries[1] == IteratorEntry(200, {DOCUMENT})
  {
    c := new Controller(100, 100, 0, []);
    c.WriteTuple("document:0", "viewer", "user:0", "document");
    c.Tick(200);
    c.Flush(1, {DOCUMENT});
    c.Flush(2, {DOCUMENT});
    c.WriteTuple("document:1", "viewer", "user:1", "document");
  }

  /** A run has handled the change, and has not written a record for the store. */
  method RunOnce(c: Controller)
    requires c.Valid() && !c.inflight && c.events == [] && c.iteratorCacheTTL == 100
    requires c.now == 201 && c.log == [OLD_CHANGE, NEW_CHANGE] && c.storeRecord == None && c.changelogEntry == None
    modifies c
    ensures c.Valid() && c.now == 201 && c.entries == old(c.entries)
    ensures c.storeRecord == None && (NEW_CHANGE, DOCUMENT) in c.handled
  {
    assert Page(c.log)[1] == c.log[0];
    var result := c.InvalidateIfNeeded(Returns);
    assert DOCUMENT in c.log[1].Keys();
  }

  /** Keeping the second iterator again, after a run that has handled the change, deletes the record for
      it: the first one is served, and misses the change. */
  method FlushRevivesAnEntry() returns (hit: Option<IteratorEntry>)
    ensures hit == Some(IteratorEntry(200, {DOCUMENT})) && hit.value.lastModified < NEW_CHANGE.time
  {
    var c := ReadTwice();
    RunOnce(c);
    c.Flush(2, {DOCUMENT});
    NothingRevoked(c.records);
    hit := c.FindInCache(1);
  }

  lemma NothingRevoked(records: map<WatchKey, Record>)
    requires DOCUMENT !in records
    ensures !IsInvalidAt(IteratorEntry(200, {DOCUMENT}), records, None, 201)
    ensures LiveEntry(IteratorEntry(200, {DOCUMENT}), 100, 201)
  {}
}
