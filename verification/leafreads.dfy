/** What a read that starts from the user yields (checkutil.go): the rows of the tuples of the request
    and the rows of the datastore, each sorted by object, are merged (combinedtuplereader.go), and rows that
    validation or conditions reject are dropped from the merged run. */
module LeafReads {
  import opened Options
  import opened Model
  import opened TupleMerge
  import opened Iterators
  import S = Streams

  /** The tuples that come with the request and those of the datastore, and those among them that validation
      or conditions reject. */
  datatype Store = Store(contextual: set<Tuple>, stored: set<Tuple>, ignoredContextual: set<Tuple>,
                         ignored: set<Tuple>)

  /** A store without tuples to reject. */
  function AllCount(contextual: set<Tuple>, stored: set<Tuple>): Store {
    Store(contextual, stored, {}, {})
  }

  ghost predicate HoldsTuplesOf(store: Store, e: Env) {
    && e.tuples == (store.contextual - store.ignoredContextual) + (store.stored - store.ignored)
    && forall t :: t in store.contextual + store.stored ==> t.obj.id > 0
  }

  /** The wildcard of the user's type may be assigned to the relation. */
  predicate IsPublic(e: Env, user: Subject, t: TypeName, r: RelationName) {
    user.User? && WildcardRef(user.obj.typ) in Restrictions(e, t, r)
  }

  /** The tuple passes the filter of the read. */
  predicate Selects(u: Tuple, user: Subject, t: TypeName, r: RelationName, public: bool) {
    u.obj.typ == t && u.relation == r &&
        (u.subject == user || (public && user.User? && u.subject == Wildcard(user.obj.typ)))
  }

  function MatchingIds(ts: set<Tuple>, user: Subject, t: TypeName, r: RelationName, public: bool): set<nat> {
    set u | u in ts && Selects(u, user, t, r, public) :: u.obj.id
  }

  /** Where a row comes from, and whom it names. */
  const CONTEXTUAL_USER: nat := 0
  const CONTEXTUAL_WILDCARD: nat := 1
  const STORED_USER: nat := 2
  const STORED_WILDCARD: nat := 3

  /** The rows of one object: the tuple of the user, and that of the wildcard. */
  function RowsOfObject(ts: set<Tuple>, user: Subject, t: TypeName, r: RelationName, public: bool, from: nat,
                        x: nat): (rows: seq<Item>)
    ensures forall i :: 0 <= i < |rows| ==> rows[i].key == x
    ensures x in MatchingIds(ts, user, t, r, public) ==> rows != []
  {
    (if Tuple(Object(t, x), r, user) in ts then [Item(x, from)] else []) +
    (if public && user.User? && Tuple(Object(t, x), r, Wildcard(user.obj.typ)) in ts then [Item(x, from + 1)] else [])
  }

  predicate IsLeastOf(x: nat, ids: set<nat>) {
    x in ids && forall y | y in ids :: x <= y
  }

  lemma {:induction false} HasLeast(ids: set<nat>) returns (x: nat)
    requires ids != {}
    ensures IsLeastOf(x, ids)
  {
    var w :| w in ids;
    var rest := ids - {w};
    x := w;
    if rest != {} {
      var z := HasLeast(rest);
      x := if z < w then z else w;
    }
    forall y | y in ids ensures x <= y {
      assert y == w || y in rest;
    }
  }

  function Least(ids: set<nat>): (x: nat)
    requires ids != {}
    ensures IsLeastOf(x, ids)
  {
    assert exists x :: IsLeastOf(x, ids) by { var x := HasLeast(ids); }
    var x :| IsLeastOf(x, ids);
    x
  }

  /** The rows of the given objects, sorted by object. */
  function RowsOf(ts: set<Tuple>, user: Subject, t: TypeName, r: RelationName, public: bool, from: nat,
                  ids: set<nat>): seq<Item>
  {
    if ids == {} then []
    else
      var x := Least(ids);
      RowsOfObject(ts, user, t, r, public, from, x) + RowsOf(ts, user, t, r, public, from, ids - {x})
  }

  function SortedRows(ts: set<Tuple>, user: Subject, t: TypeName, r: RelationName, public: bool, from: nat): seq<Item> {
    RowsOf(ts, user, t, r, public, from, MatchingIds(ts, user, t, r, public))
  }

  /** The sorted inputs of a read, and the rows that are dropped from what they are merged into. */
  datatype Read = Read(rows: seq<seq<Item>>, dropped: set<Item>)

  type Rows = (TypeName, RelationName) -> Read

  /** The tuple of a row. */
  function TupleOf(user: Subject, t: TypeName, r: RelationName, row: Item): Tuple {
    Tuple(Object(t, row.key), r, if row.id % 2 == 1 && user.User? then Wildcard(user.obj.typ) else user)
  }

  predicate IsIgnored(store: Store, user: Subject, t: TypeName, r: RelationName, row: Item) {
    TupleOf(user, t, r, row) in (if row.id < STORED_USER then store.ignoredContextual else store.ignored)
  }

  /** The read of one relation. */
  function LeafRows(e: Env, store: Store, user: Subject): Rows {
    (t, r) =>
      var public := IsPublic(e, user, t, r);
      var a := SortedRows(store.contextual, user, t, r, public, CONTEXTUAL_USER);
      var b := SortedRows(store.stored, user, t, r, public, STORED_USER);
      Read([a, b], set x | x in a + b && IsIgnored(store, user, t, r, x))
  }

  function AsInputs(rows: seq<seq<Item>>): seq<Input> {
    seq(|rows|, i requires 0 <= i < |rows| => Input(rows[i]))
  }

  function KeySeq(items: seq<Item>): seq<S.Id> {
    seq(|items|, i requires 0 <= i < |items| => items[i].key)
  }

  /** The run of the merge that a read is, if no read below fails. */
  function LeafRun(read: Read): RunResult {
    Run(AsInputs(read.rows), None)
  }

  /** The filter over a read. */
  function FilterOf(dropped: set<Item>): Filter {
    x => if x in dropped then NotMet else Met
  }

  /** The objects that are left of some rows. */
  function KeysKept(dropped: set<Item>, items: seq<Item>): seq<S.Id> {
    KeySeq(Kept(FilterOf(dropped), items))
  }

  /** The objects that the read yields. */
  function LeafList(read: Read): seq<S.Id> {
    KeysKept(read.dropped, LeafRun(read).items)
  }

  /** Some row of the object counts. */
  ghost predicate IsCounted(read: Read, x: nat) {
    exists i, y :: 0 <= i < |read.rows| && y in read.rows[i] && y !in read.dropped && y.key == x
  }

  predicate AreSorted(rows: seq<seq<Item>>) {
    forall i | 0 <= i < |rows| :: ByKey(rows[i]) && forall j | 0 <= j < |rows[i]| :: rows[i][j].key > 0
  }

  /** The inputs of all reads are sorted and name objects. */
  ghost predicate AllSorted(rows: Rows) {
    forall t, r :: AreSorted(rows(t, r).rows)
  }

  /** The read does not end in a failure of the merge. */
  predicate IsUnbroken(read: Read) {
    LeafRun(read).end == Done
  }

  /** The rows are merged without loss, and those of one object are dropped together or not at all. */
  ghost predicate IsLegible(read: Read) {
    Lossless(AsInputs(read.rows)) && IsUniform(read)
  }

  ghost predicate IsUniform(read: Read) {
    forall i, j, y, z :: 0 <= i < |read.rows| && 0 <= j < |read.rows| && y in read.rows[i] && z in read.rows[j] ==>
      y.key == z.key && y in read.dropped ==> z in read.dropped
  }

  /** The read lists the objects with a row that counts, and ends without failure. */
  ghost predicate ListsCounted(read: Read) {
    IsUnbroken(read) && forall x: S.Id :: x in LeafList(read) <==> IsCounted(read, x)
  }

  // ----- what is left of a run

  lemma KeptAre(filter: Filter, items: seq<Item>)
    ensures forall x :: x in Kept(filter, items) <==> x in items && filter(x).Met?
  {
    if items != [] {
      KeptAre(filter, items[..|items| - 1]);
      assert items == items[..|items| - 1] + [items[|items| - 1]];
    }
  }

  /** What is left of a part of the run is a part of what is left. */
  lemma KeptPart(filter: Filter, part: seq<Item>, items: seq<Item>)
    requires part <= items
    ensures Kept(filter, part) <= Kept(filter, items)
  {
    assert items == part + items[|part|..];
    KeptConcat(filter, part, items[|part|..]);
  }

  lemma {:induction false} KeptIsStrict(filter: Filter, items: seq<Item>)
    requires StrictlyByKey(items)
    ensures StrictlyByKey(Kept(filter, items))
  {
    if items != [] {
      var front, last := items[..|items| - 1], items[|items| - 1];
      KeptIsStrict(filter, front);
      KeptAre(filter, front);
      var kept := Kept(filter, front);
      forall i | 0 <= i < |kept| ensures kept[i].key < last.key {
        assert kept[i] in kept;
        var j :| 0 <= j < |front| && front[j] == kept[i];
      }
    }
  }

  /** An object is listed if the run yields a row of it that is not dropped. */
  lemma ListedIs(read: Read, x: S.Id)
    ensures x in LeafList(read) <==> exists y :: y in LeafRun(read).items && y !in read.dropped && y.key == x
  {
    var items := LeafRun(read).items;
    KeptAre(FilterOf(read.dropped), items);
    InKeySeq(Kept(FilterOf(read.dropped), items), x);
  }

  // ----- the rows

  lemma {:induction false} RowsAreSorted(ts: set<Tuple>, user: Subject, t: TypeName, r: RelationName, public: bool,
                                         from: nat, ids: set<nat>)
    ensures var rows := RowsOf(ts, user, t, r, public, from, ids); ByKey(rows) && KeysOf(rows) <= ids
    ensures ids <= MatchingIds(ts, user, t, r, public) ==> KeysOf(RowsOf(ts, user, t, r, public, from, ids)) == ids
  {
    if ids != {} {
      var x := Least(ids);
      RowsAreSorted(ts, user, t, r, public, from, ids - {x});
      SortedJoin(RowsOfObject(ts, user, t, r, public, from, x), RowsOf(ts, user, t, r, public, from, ids - {x}), x,
                 ids);
    }
  }

  /** The rows are those of the objects, no more and no less. */
  lemma {:induction false} RowsAre(ts: set<Tuple>, user: Subject, t: TypeName, r: RelationName, public: bool, from: nat,
                                   ids: set<nat>, y: Item)
    ensures y in RowsOf(ts, user, t, r, public, from, ids) <==>
            y.key in ids && y in RowsOfObject(ts, user, t, r, public, from, y.key)
  {
    if ids != {} {
      RowsAre(ts, user, t, r, public, from, ids - {Least(ids)}, y);
    }
  }

  lemma SortedJoin(a: seq<Item>, b: seq<Item>, x: nat, ids: set<nat>)
    requires forall i :: 0 <= i < |a| ==> a[i].key == x
    requires ByKey(b) && KeysOf(b) <= ids - {x} && x in ids && forall y :: y in ids ==> x <= y
    ensures ByKey(a + b) && KeysOf(a + b) <= ids
    ensures a != [] && KeysOf(b) == ids - {x} ==> KeysOf(a + b) == ids
  {
    forall i | 0 <= i < |b| ensures x <= b[i].key {
      assert b[i] in b;
      assert b[i].key in KeysOf(b);
    }
    KeysOfJoin(a, b);
    assert KeysOf(a) <= {x};
    if a != [] {
      assert a[0] in a;
    }
  }

  lemma KeysOfJoin(a: seq<Item>, b: seq<Item>)
    ensures KeysOf(a + b) == KeysOf(a) + KeysOf(b)
  {
    assert forall y :: y in a + b <==> y in a || y in b;
  }

  lemma LeafRowsAreSorted(e: Env, store: Store, user: Subject)
    requires HoldsTuplesOf(store, e)
    ensures AllSorted(LeafRows(e, store, user))
  {
    forall t, r ensures AreSorted(LeafRows(e, store, user)(t, r).rows) {
      var public := IsPublic(e, user, t, r);
      SortedRowsAre(store.contextual, user, t, r, public, CONTEXTUAL_USER);
      SortedRowsAre(store.stored, user, t, r, public, STORED_USER);
      var a := SortedRows(store.contextual, user, t, r, public, CONTEXTUAL_USER);
      var b := SortedRows(store.stored, user, t, r, public, STORED_USER);
      assert LeafRows(e, store, user)(t, r).rows == [a, b];
      BothSorted(a, b);
    }
  }

  lemma BothSorted(a: seq<Item>, b: seq<Item>)
    requires AreSorted([a]) && AreSorted([b])
    ensures AreSorted([a, b])
  {
    assert [a][0] == a && [b][0] == b;
  }

  lemma SortedRowsAre(ts: set<Tuple>, user: Subject, t: TypeName, r: RelationName, public: bool, from: nat)
    requires forall u :: u in ts ==> u.obj.id > 0
    ensures AreSorted([SortedRows(ts, user, t, r, public, from)])
  {
    var rows := SortedRows(ts, user, t, r, public, from);
    RowsAreSorted(ts, user, t, r, public, from, MatchingIds(ts, user, t, r, public));
    forall j | 0 <= j < |rows| ensures rows[j].key > 0 {
      assert rows[j] in rows;
      assert rows[j].key in KeysOf(rows);
    }
  }

  lemma SortedInputs(rows: seq<seq<Item>>)
    requires AreSorted(rows)
    ensures AllByKey(AsInputs(rows))
  {}

  /** What a read yields is strictly ascending and names objects. */
  lemma LeafIsStrict(read: Read)
    requires AreSorted(read.rows)
    ensures S.StrictlyAscending(LeafList(read)) && S.Proper(LeafList(read))
  {
    var inputs, filter := AsInputs(read.rows), FilterOf(read.dropped);
    SortedInputs(read.rows);
    RunAscends(inputs, None);
    RunYieldsAbove(inputs, None);
    KeptIsStrict(filter, LeafRun(read).items);
    KeptAre(filter, LeafRun(read).items);
    var items := Kept(filter, LeafRun(read).items);
    forall i | 0 <= i < |items| ensures items[i].key > 0 {
      assert items[i] in items;
      var j :| 0 <= j < |read.rows| && items[i] in read.rows[j];
    }
  }

  // ----- when a read is right

  /** A key of the inputs is that of some row. */
  lemma KeyIsOfRow(rows: seq<seq<Item>>, x: nat)
    ensures x in KeysLeft(AsInputs(rows)) <==> exists i, y :: 0 <= i < |rows| && y in rows[i] && y.key == x
  {
    var inputs := AsInputs(rows);
    if x in KeysLeft(inputs) {
      var y :| y in Left(inputs) && y.key == x;
      var i :| 0 <= i < |inputs| && inputs[i].Input? && y in inputs[i].items;
      assert y in rows[i];
    }
    if i, y :| 0 <= i < |rows| && y in rows[i] && y.key == x {
      assert inputs[i].Input? && y in inputs[i].items;
    }
  }

  /** What the run yields comes from some row. */
  lemma YieldedIsRow(read: Read, y: Item) returns (i: nat)
    requires AreSorted(read.rows) && y in LeafRun(read).items
    ensures i < |read.rows| && y in read.rows[i]
  {
    SortedInputs(read.rows);
    RunYieldsAbove(AsInputs(read.rows), None);
    i :| 0 <= i < |read.rows| && y in read.rows[i];
  }

  /** What is read from legible rows are the objects with a row that counts. */
  lemma LegibleListsCounted(read: Read)
    requires AreSorted(read.rows) && IsLegible(read)
    ensures ListsCounted(read)
  {
    SortedInputs(read.rows);
    MergedIffLossless(AsInputs(read.rows));
    forall x: S.Id ensures x in LeafList(read) <==> IsCounted(read, x) {
      ListedIs(read, x);
      if y :| y in LeafRun(read).items && y !in read.dropped && y.key == x {
        var i := YieldedIsRow(read, y);
      }
      if IsCounted(read, x) {
        CountedIsYielded(read, x);
      }
    }
  }

  lemma CountedIsYielded(read: Read, x: nat)
    requires AreSorted(read.rows) && IsUniform(read) && IsCounted(read, x)
    requires KeysOf(LeafRun(read).items) == KeysLeft(AsInputs(read.rows))
    ensures exists y :: y in LeafRun(read).items && y !in read.dropped && y.key == x
  {
    KeyIsOfRow(read.rows, x);
    var y :| y in LeafRun(read).items && y.key == x;
    var i := YieldedIsRow(read, y);
    assert y !in read.dropped;
  }

  /** If no row is dropped, a read lists what it should if and only if its rows are merged without loss. */
  lemma AllCountedIff(rows: seq<seq<Item>>)
    requires AreSorted(rows)
    ensures ListsCounted(Read(rows, {})) <==> Lossless(AsInputs(rows))
  {
    var read, inputs := Read(rows, {}), AsInputs(rows);
    SortedInputs(rows);
    MergedIffLossless(inputs);
    RunAscends(inputs, None);
    if Lossless(inputs) {
      LegibleListsCounted(read);
    }
    if ListsCounted(read) {
      forall x: nat ensures x in KeysOf(LeafRun(read).items) <==> x in KeysLeft(inputs) {
        ListedIs(read, x);
        KeyIsOfRow(rows, x);
      }
    }
  }

  /** Every row has an object of its own. */
  ghost predicate AreUnrepeated(rows: seq<seq<Item>>) {
    forall i, j, y, z :: 0 <= i < |rows| && 0 <= j < |rows| && y in rows[i] && z in rows[j] && y.key == z.key ==> y == z
  }

  /** No row occurs twice. */
  ghost predicate AreDistinct(rows: seq<seq<Item>>) {
    && (forall i, a, b :: 0 <= i < |rows| && 0 <= a < b < |rows[i]| ==> rows[i][a] != rows[i][b])
    && forall i, j, y :: 0 <= i < |rows| && 0 <= j < |rows| && y in rows[i] && y in rows[j] ==> i == j
  }

  /** Whichever rows validation and conditions drop, the read lists what it should, if and only if every row
      has an object of its own. */
  lemma RightWhateverIsDroppedIff(rows: seq<seq<Item>>)
    requires AreSorted(rows) && AreDistinct(rows)
    ensures (forall dropped: set<Item> :: ListsCounted(Read(rows, dropped))) <==> AreUnrepeated(rows)
  {
    if AreUnrepeated(rows) {
      UnrepeatedIsLossless(rows);
      forall dropped: set<Item> ensures ListsCounted(Read(rows, dropped)) {
        assert IsUniform(Read(rows, dropped));
        LegibleListsCounted(Read(rows, dropped));
      }
    } else {
      var i, j, y, z :| 0 <= i < |rows| && 0 <= j < |rows| && y in rows[i] && z in rows[j] && y.key == z.key && y != z;
      var dropped := DropTheYielded(rows, i, j, y, z);
      assert !ListsCounted(Read(rows, dropped));
    }
  }

  lemma UnrepeatedIsLossless(rows: seq<seq<Item>>)
    requires AreSorted(rows) && AreDistinct(rows) && AreUnrepeated(rows)
    ensures Lossless(AsInputs(rows))
  {
    var inputs := AsInputs(rows);
    forall i | 0 <= i < |rows| ensures StrictlyByKey(rows[i]) {
      forall a, b | 0 <= a < b < |rows[i]| ensures rows[i][a].key < rows[i][b].key {
        assert rows[i][a] in rows[i] && rows[i][b] in rows[i];
      }
    }
    forall i, j, k | HasKey(inputs, i, k) && HasKey(inputs, j, k) ensures i == j {
      var y :| y in rows[i] && y.key == k;
      var z :| z in rows[j] && z.key == k;
    }
    SeparateIsLossless(inputs);
  }

  /** If two rows share an object, dropping the one that the run yields makes the read lose the other. */
  lemma DropTheYielded(rows: seq<seq<Item>>, i: nat, j: nat, y: Item, z: Item) returns (dropped: set<Item>)
    requires AreSorted(rows) && i < |rows| && j < |rows| && y in rows[i] && z in rows[j] && y.key == z.key && y != z
    ensures !ListsCounted(Read(rows, dropped))
  {
    var items := LeafRun(Read(rows, {})).items;
    SortedInputs(rows);
    RunAscends(AsInputs(rows), None);
    dropped := {};
    if x :| x in items && x.key == y.key {
      dropped := {x};
      var read := Read(rows, dropped);
      ListedIs(read, y.key);
      forall w | w in items && w.key == y.key ensures w == x {
        SameKeySameItem(items, w, x);
      }
      assert IsCounted(read, y.key) by { assert (y !in dropped) || (z !in dropped); }
    } else {
      ListedIs(Read(rows, dropped), y.key);
      assert IsCounted(Read(rows, dropped), y.key);
    }
  }

  lemma SameKeySameItem(items: seq<Item>, x: Item, y: Item)
    requires StrictlyByKey(items) && x in items && y in items && x.key == y.key
    ensures x == y
  {
    var i :| 0 <= i < |items| && items[i] == x;
    var j :| 0 <= j < |items| && items[j] == y;
  }

  /** The objects with a row that counts are those directly related to the user. */
  lemma CountedIsDirect(e: Env, store: Store, user: Subject, t: TypeName, r: RelationName, x: nat)
    requires HoldsTuplesOf(store, e) && ValidTuples(e)
    ensures IsCounted(LeafRows(e, store, user)(t, r), x) <==> Direct(e, Goal(Object(t, x), r, user))
  {
    var read, public := LeafRows(e, store, user)(t, r), IsPublic(e, user, t, r);
    if IsCounted(read, x) {
      var i, y :| 0 <= i < |read.rows| && y in read.rows[i] && y !in read.dropped && y.key == x;
      RowIsDirect(e, store, user, t, r, i, y);
    }
    if Direct(e, Goal(Object(t, x), r, user)) {
      var wild := Tuple(Object(t, x), r, user) !in e.tuples;
      if wild {
        assert RefOf(Wildcard(user.obj.typ)) in Restrictions(e, t, r);
      }
      DirectHasRow(e, store, user, t, r, x, wild);
    }
  }

  /** A row that counts is that of a tuple that relates its object to the user. */
  lemma RowIsDirect(e: Env, store: Store, user: Subject, t: TypeName, r: RelationName, i: nat, y: Item)
    requires HoldsTuplesOf(store, e)
    requires var read := LeafRows(e, store, user)(t, r); i < |read.rows| && y in read.rows[i] && y !in read.dropped
    ensures Direct(e, Goal(Object(t, y.key), r, user))
  {
    var public := IsPublic(e, user, t, r);
    var ts, from := if i == 0 then store.contextual else store.stored,
        if i == 0 then CONTEXTUAL_USER else STORED_USER;
    RowsAre(ts, user, t, r, public, from, MatchingIds(ts, user, t, r, public), y);
    assert TupleOf(user, t, r, y) in ts;
    assert !IsIgnored(store, user, t, r, y);
    assert TupleOf(user, t, r, y) in e.tuples;
  }

  /** A tuple that relates the object to the user, by name or by the wildcard, has a row that counts. */
  lemma DirectHasRow(e: Env, store: Store, user: Subject, t: TypeName, r: RelationName, x: nat, wild: bool)
    requires HoldsTuplesOf(store, e) && (wild ==> IsPublic(e, user, t, r))
    requires Tuple(Object(t, x), r, if wild then Wildcard(user.obj.typ) else user) in e.tuples
    ensures IsCounted(LeafRows(e, store, user)(t, r), x)
  {
    var read, public := LeafRows(e, store, user)(t, r), IsPublic(e, user, t, r);
    var u := Tuple(Object(t, x), r, if wild then Wildcard(user.obj.typ) else user);
    var i := if u in store.contextual - store.ignoredContextual then 0 else 1;
    var ts, from := if i == 0 then store.contextual else store.stored,
        if i == 0 then CONTEXTUAL_USER else STORED_USER;
    var y := Item(x, if wild then from + 1 else from);
    assert Selects(u, user, t, r, public);
    assert y in RowsOfObject(ts, user, t, r, public, from, x);
    RowsAre(ts, user, t, r, public, from, MatchingIds(ts, user, t, r, public), y);
    assert y in read.rows[i] && TupleOf(user, t, r, y) == u;
  }

  /** The read of one relation lists the objects directly related to the user, and ends without failure. */
  ghost predicate ReadsAll(e: Env, store: Store, user: Subject, t: TypeName, r: RelationName) {
    var read := LeafRows(e, store, user)(t, r);
    IsUnbroken(read) && forall x: S.Id :: x in LeafList(read) <==> Direct(e, Goal(Object(t, x), r, user))
  }

  lemma ReadsAllIffCounted(e: Env, store: Store, user: Subject, t: TypeName, r: RelationName)
    requires HoldsTuplesOf(store, e) && ValidTuples(e)
    ensures ReadsAll(e, store, user, t, r) <==> ListsCounted(LeafRows(e, store, user)(t, r))
  {
    forall x: S.Id ensures IsCounted(LeafRows(e, store, user)(t, r), x) <==> Direct(e, Goal(Object(t, x), r, user)) {
      CountedIsDirect(e, store, user, t, r, x);
    }
  }

  /** If its rows are merged without loss, and those of one object are dropped together or not at all, the read
      of one relation is right; if no row is dropped, only then. */
  lemma ReadsAllIff(e: Env, store: Store, user: Subject, t: TypeName, r: RelationName)
    requires HoldsTuplesOf(store, e) && ValidTuples(e)
    ensures var read := LeafRows(e, store, user)(t, r);
            && (IsLegible(read) ==> ReadsAll(e, store, user, t, r))
            && (read.dropped == {} ==> (ReadsAll(e, store, user, t, r) <==> Lossless(AsInputs(read.rows))))
  {
    var read := LeafRows(e, store, user)(t, r);
    LeafRowsAreSorted(e, store, user);
    assert AreSorted(read.rows);
    ReadsAllIffCounted(e, store, user, t, r);
    AllCountedIff(read.rows);
    assert read.dropped == {} ==> read == Read(read.rows, {});
    if IsLegible(read) {
      LegibleListsCounted(read);
    }
  }

  lemma InKeySeq(items: seq<Item>, x: S.Id)
    ensures x in KeySeq(items) <==> x in KeysOf(items)
  {
    if x in KeySeq(items) {
      var i :| 0 <= i < |items| && KeySeq(items)[i] == x;
      assert items[i] in items;
    }
    if x in KeysOf(items) {
      var y :| y in items && y.key == x;
      var i :| 0 <= i < |items| && items[i] == y;
      assert KeySeq(items)[i] == x;
    }
  }

  /** Every read of the store that starts from the user is right. */
  ghost predicate IsReadable(e: Env, store: Store, user: Subject) {
    forall t, r :: IsLegible(LeafRows(e, store, user)(t, r))
  }

  /** The subject is the user or the wildcard that includes the user. */
  predicate Includes(subject: Subject, user: Subject) {
    subject == user || (user.User? && subject == Wildcard(user.obj.typ))
  }

  /** No object has a relation to the user twice: not by two tuples, and not by one of the request that is
      in the datastore as well. */
  ghost predicate Unrepeated(store: Store, user: Subject) {
    && (forall u, v :: u in store.contextual && v in store.contextual && IsRepetition(u, v, user) ==> u == v)
    && (forall u, v :: u in store.stored && v in store.stored && IsRepetition(u, v, user) ==> u == v)
    && (forall u, v :: u in store.contextual && v in store.stored ==> !IsRepetition(u, v, user))
  }

  predicate IsRepetition(u: Tuple, v: Tuple, user: Subject) {
    u.obj == v.obj && u.relation == v.relation && Includes(u.subject, user) && Includes(v.subject, user)
  }

  /** Without such repetitions every read is right, whatever is rejected. */
  lemma UnrepeatedIsReadable(e: Env, store: Store, user: Subject)
    requires Unrepeated(store, user)
    ensures IsReadable(e, store, user)
  {
    forall t, r ensures IsLegible(LeafRows(e, store, user)(t, r)) {
      var public, read := IsPublic(e, user, t, r), LeafRows(e, store, user)(t, r);
      var a := SortedRows(store.contextual, user, t, r, public, CONTEXTUAL_USER);
      var b := SortedRows(store.stored, user, t, r, public, STORED_USER);
      assert read.rows == [a, b];
      SingleRows(store.contextual, user, t, r, public, CONTEXTUAL_USER,
                 MatchingIds(store.contextual, user, t, r, public));
      SingleRows(store.stored, user, t, r, public, STORED_USER, MatchingIds(store.stored, user, t, r, public));
      forall k ensures k !in KeysOf(a) || k !in KeysOf(b) {
        NotInBoth(store, user, t, r, public, k);
      }
      TwoSeparate(a, b);
      SeparateIsUniform(a, b, read.dropped);
    }
  }

  lemma NotInBoth(store: Store, user: Subject, t: TypeName, r: RelationName, public: bool, k: nat)
    requires Unrepeated(store, user)
    ensures k !in KeysOf(SortedRows(store.contextual, user, t, r, public, CONTEXTUAL_USER)) ||
            k !in KeysOf(SortedRows(store.stored, user, t, r, public, STORED_USER))
  {
    RowsAreSorted(store.contextual, user, t, r, public, CONTEXTUAL_USER,
                  MatchingIds(store.contextual, user, t, r, public));
    RowsAreSorted(store.stored, user, t, r, public, STORED_USER, MatchingIds(store.stored, user, t, r, public));
    if k in MatchingIds(store.contextual, user, t, r, public) && k in MatchingIds(store.stored, user, t, r, public) {
      var u :| u in store.contextual && Selects(u, user, t, r, public) && u.obj.id == k;
      var v :| v in store.stored && Selects(v, user, t, r, public) && v.obj.id == k;
      assert u.obj == Object(t, k) && v.obj == Object(t, k);
      assert IsRepetition(u, v, user);
    }
  }

  lemma {:induction false} SingleRows(ts: set<Tuple>, user: Subject, t: TypeName, r: RelationName, public: bool,
                                      from: nat, ids: set<nat>)
    requires forall u, v :: u in ts && v in ts && IsRepetition(u, v, user) ==> u == v
    ensures StrictlyByKey(RowsOf(ts, user, t, r, public, from, ids))
    ensures KeysOf(RowsOf(ts, user, t, r, public, from, ids)) <= ids
  {
    if ids != {} {
      var x := Least(ids);
      var row := RowsOfObject(ts, user, t, r, public, from, x);
      var rest := RowsOf(ts, user, t, r, public, from, ids - {x});
      SingleRows(ts, user, t, r, public, from, ids - {x});
      if |row| == 2 {
        assert IsRepetition(Tuple(Object(t, x), r, user), Tuple(Object(t, x), r, Wildcard(user.obj.typ)), user);
      }
      forall j | 0 <= j < |rest| ensures x < rest[j].key {
        assert rest[j] in rest;
        assert rest[j].key in KeysOf(rest);
      }
      KeysOfJoin(row, rest);
    }
  }

  lemma TwoSeparate(a: seq<Item>, b: seq<Item>)
    requires StrictlyByKey(a) && StrictlyByKey(b) && KeysOf(a) !! KeysOf(b)
    ensures Lossless(AsInputs([a, b]))
  {
    var inputs := AsInputs([a, b]);
    forall i, j, k | HasKey(inputs, i, k) && HasKey(inputs, j, k) ensures i == j {
      assert (i == 0 && k in KeysOf(a)) || (i == 1 && k in KeysOf(b));
    }
    SeparateIsLossless(inputs);
  }

  lemma SeparateIsUniform(a: seq<Item>, b: seq<Item>, dropped: set<Item>)
    requires StrictlyByKey(a) && StrictlyByKey(b) && KeysOf(a) !! KeysOf(b)
    ensures IsUniform(Read([a, b], dropped))
  {
    forall i, j, y, z | 0 <= i < 2 && 0 <= j < 2 && y in [a, b][i] && z in [a, b][j] && y.key == z.key ensures y == z {
      assert i == 0 ==> y.key in KeysOf(a);
      assert i == 1 ==> y.key in KeysOf(b);
      assert j == 0 ==> z.key in KeysOf(a);
      assert j == 1 ==> z.key in KeysOf(b);
      SameKeySameItem(if i == 0 then a else b, y, z);
    }
  }

  /** The rows of a read are all different. */
  lemma RowsAreDistinct(e: Env, store: Store, user: Subject, t: TypeName, r: RelationName)
    ensures AreDistinct(LeafRows(e, store, user)(t, r).rows)
  {
    var public := IsPublic(e, user, t, r);
    var first := SortedRows(store.contextual, user, t, r, public, CONTEXTUAL_USER);
    var second := SortedRows(store.stored, user, t, r, public, STORED_USER);
    RowsComeFrom(store.contextual, user, t, r, public, CONTEXTUAL_USER);
    RowsComeFrom(store.stored, user, t, r, public, STORED_USER);
    BothDistinct(first, second);
  }

  lemma RowsComeFrom(ts: set<Tuple>, user: Subject, t: TypeName, r: RelationName, public: bool, from: nat)
    ensures AreDistinct([SortedRows(ts, user, t, r, public, from)])
    ensures forall y :: y in SortedRows(ts, user, t, r, public, from) ==> y.id == from || y.id == from + 1
  {
    DifferentRows(ts, user, t, r, public, from, MatchingIds(ts, user, t, r, public));
    forall y | y in SortedRows(ts, user, t, r, public, from) ensures y.id == from || y.id == from + 1 {
      RowsAre(ts, user, t, r, public, from, MatchingIds(ts, user, t, r, public), y);
    }
  }

  lemma BothDistinct(a: seq<Item>, b: seq<Item>)
    requires AreDistinct([a]) && AreDistinct([b])
    requires (forall y :: y in a ==> y.id < STORED_USER) && forall y :: y in b ==> y.id >= STORED_USER
    ensures AreDistinct([a, b])
  {
    assert [a][0] == a && [b][0] == b;
  }

  lemma {:induction false} DifferentRows(ts: set<Tuple>, user: Subject, t: TypeName, r: RelationName, public: bool,
                                         from: nat, ids: set<nat>)
    ensures AreDistinct([RowsOf(ts, user, t, r, public, from, ids)])
  {
    if ids != {} {
      var x := Least(ids);
      var row := RowsOfObject(ts, user, t, r, public, from, x);
      var rest := RowsOf(ts, user, t, r, public, from, ids - {x});
      DifferentRows(ts, user, t, r, public, from, ids - {x});
      assert [rest][0] == rest;
      RowsAreSorted(ts, user, t, r, public, from, ids - {x});
      forall j | 0 <= j < |rest| ensures rest[j].key != x {
        assert rest[j] in rest;
        assert rest[j].key in KeysOf(rest);
      }
    }
  }

  /** Whatever is rejected, the read of one relation is right, if and only if no object has the relation to the
      user twice. */
  lemma RightWhateverIsRejectedIff(e: Env, store: Store, user: Subject, t: TypeName, r: RelationName)
    requires HoldsTuplesOf(store, e)
    ensures var rows := LeafRows(e, store, user)(t, r).rows;
            (forall dropped: set<Item> :: ListsCounted(Read(rows, dropped))) <==> AreUnrepeated(rows)
  {
    LeafRowsAreSorted(e, store, user);
    RowsAreDistinct(e, store, user, t, r);
    RightWhateverIsDroppedIff(LeafRows(e, store, user)(t, r).rows);
  }
}
