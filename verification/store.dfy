/**
 * The MongoDB database `corona` as a value, and the semantics of `upsert_data`.
 *
 * A collection is the sequence of its documents; `replace_one(filter={'date': d},
 * replacement=record, upsert=True)` replaces the FIRST document whose `date` is `d`,
 * keeping its `_id`, or appends the record under a fresh `_id`.
 */
module Store {
  import opened Outcomes
  import opened Documents

  /** A stored document: the server-assigned `_id` and the record's fields. */
  datatype StoredDoc = StoredDoc(id: nat, body: Document)

  type Collection = seq<StoredDoc>

  /** The database: its collections by name, and the next `_id` the server will hand out. */
  datatype DbState = DbState(collections: map<string, Collection>, nextId: nat)

  /** The natural key of a record: the collection it is routed to, and its `date`. */
  datatype Key = Key(name: string, date: Value)

  /** `fetch_all_data(state)`: the documents of collection `state`, looked up by exactly that
      name; a collection that does not exist reads as empty. */
  function FetchAllData(db: DbState, state: string): (docs: Collection)
    ensures state in db.collections ==> docs == db.collections[state]
    ensures state !in db.collections ==> docs == []
  {
    if state in db.collections then db.collections[state] else []
  }

  /** Routing of one record: `record['state'].lower()` names the collection and `record['date']`
      is the filter. None when either expression raises (missing key, `state` not a string). */
  function KeyOf(rec: Document): (k: Option<Key>)
    ensures k.Some? <==> "state" in rec && rec["state"].Str? && "date" in rec
    ensures k.Some? ==> IsLower(k.value.name) && "date" in rec && k.value.date == rec["date"]
    ensures k.Some? ==> k.value.name == Lower(rec["state"].s)
  {
    if "state" in rec && rec["state"].Str? && "date" in rec
    then Some(Key(Lower(rec["state"].s), rec["date"]))
    else None
  }

  /** Does the filter `{'date': date}` select this document? */
  predicate Matches(d: StoredDoc, date: Value) {
    "date" in d.body && d.body["date"] == date
  }

  /** Position of the first document selected by `{'date': date}`. */
  function Locate(c: Collection, date: Value): (r: Option<nat>)
    ensures r.Some? ==> r.value < |c| && Matches(c[r.value], date)
    ensures r.Some? ==> forall j :: 0 <= j < r.value ==> !Matches(c[j], date)
    ensures r.None? ==> forall j :: 0 <= j < |c| ==> !Matches(c[j], date)
  {
    if c == [] then None
    else if Matches(c[0], date) then Some(0)
    else match Locate(c[1..], date)
      case None => None
      case Some(i) => Some(i + 1)
  }

  /** The body of the document `find_one({'date': k.date})` returns from collection `k.name`. */
  function Lookup(db: DbState, k: Key): Option<Document> {
    var c := FetchAllData(db, k.name);
    match Locate(c, k.date)
    case None => None
    case Some(i) => Some(c[i].body)
  }

  /** The documents of a collection selected by `{'date': date}`, in storage order. */
  function DocsAt(c: Collection, date: Value): seq<StoredDoc> {
    if c == [] then []
    else (if Matches(c[0], date) then [c[0]] else []) + DocsAt(c[1..], date)
  }

  /** At most one document per `date` in a collection. */
  ghost predicate UniqueDates(c: Collection) {
    forall i, j :: 0 <= i < j < |c| && "date" in c[i].body && "date" in c[j].body ==>
      c[i].body["date"] != c[j].body["date"]
  }

  ghost predicate UniqueStore(db: DbState) {
    forall n :: n in db.collections ==> UniqueDates(db.collections[n])
  }

  ghost predicate LowerNames(db: DbState) {
    forall n :: n in db.collections ==> IsLower(n)
  }

  /** `collection(name).replace_one(filter={'date': rec['date']}, replacement=rec, upsert=True)`;
      the boolean is `matched_count > 0`. */
  function ReplaceOne(db: DbState, name: string, rec: Document): (DbState, bool)
    requires "date" in rec
  {
    var c := FetchAllData(db, name);
    match Locate(c, rec["date"])
    case Some(i) => (DbState(db.collections[name := c[i := StoredDoc(c[i].id, rec)]], db.nextId), true)
    case None => (DbState(db.collections[name := c + [StoredDoc(db.nextId, rec)]], db.nextId + 1), false)
  }

  /** What `replace_one` reports and what it changes: a match exactly when the key already has
      a document; otherwise a fresh `_id` and one more document; other collections untouched. */
  lemma ReplaceOneSpec(db: DbState, name: string, rec: Document)
    requires "date" in rec
    ensures var r := ReplaceOne(db, name, rec);
      && (r.1 <==> Lookup(db, Key(name, rec["date"])).Some?)
      && r.0.nextId == (if r.1 then db.nextId else db.nextId + 1)
      && r.0.collections.Keys == db.collections.Keys + {name}
      && |FetchAllData(r.0, name)| == |FetchAllData(db, name)| + (if r.1 then 0 else 1)
      && forall n :: n != name ==> FetchAllData(r.0, n) == FetchAllData(db, n)
  {
  }

  /** What `upsert_data` leaves behind: the database, `update_count`, and whether the loop
      ran to the end (false: an exception left it, after the earlier records were written). */
  datatype UpsertOutcome = UpsertOutcome(db: DbState, updates: nat, ok: bool)

  /** One iteration of the loop of `upsert_data`: route the record and `replace_one` it,
      counting a match; a record that cannot be routed raises and ends the loop. */
  function Step(prev: UpsertOutcome, rec: Document): (o: UpsertOutcome)
    ensures !prev.ok ==> o == prev
    ensures o.ok <==> prev.ok && KeyOf(rec).Some?
    ensures o.updates == prev.updates + (if o.ok && Lookup(prev.db, KeyOf(rec).value).Some? then 1 else 0)
    ensures o.ok ==> o.db.nextId == prev.db.nextId + (if Lookup(prev.db, KeyOf(rec).value).Some? then 0 else 1)
  {
    if !prev.ok then prev
    else match KeyOf(rec)
      case None => UpsertOutcome(prev.db, prev.updates, false)
      case Some(k) =>
        var (db', matched) := ReplaceOne(prev.db, k.name, rec);
        UpsertOutcome(db', prev.updates + (if matched then 1 else 0), true)
  }

  /** `upsert_data` over the records of a data frame, one `replace_one` per record in order. */
  function Upsert(db: DbState, rs: seq<Document>): UpsertOutcome
    decreases |rs|
  {
    if rs == [] then UpsertOutcome(db, 0, true)
    else Step(Upsert(db, rs[..|rs| - 1]), rs[|rs| - 1])
  }

  /** `update_count` never exceeds the number of records, and a completed batch handed out
      one fresh `_id` per record that did not match. */
  lemma {:induction false} UpsertCounts(db: DbState, rs: seq<Document>)
    ensures Upsert(db, rs).updates <= |rs|
    ensures Upsert(db, rs).ok ==> Upsert(db, rs).db.nextId == db.nextId + (|rs| - Upsert(db, rs).updates)
    decreases |rs|
  {
    if rs != [] {
      UpsertCounts(db, rs[..|rs| - 1]);
    }
  }

  /** Extending the batch by one record is one more `Step`. */
  lemma UpsertSnoc(db: DbState, rs: seq<Document>, i: nat)
    requires i < |rs|
    ensures Upsert(db, rs[..i + 1]) == Step(Upsert(db, rs[..i]), rs[i])
  {
    assert rs[..i + 1][..i] == rs[..i];
  }

  /** Every record of the batch can be routed. */
  predicate Routable(rs: seq<Document>) {
    forall i :: 0 <= i < |rs| ==> KeyOf(rs[i]).Some?
  }

  /** The natural keys the batch writes. */
  function KeySet(rs: seq<Document>): set<Key>
    decreases |rs|
  {
    if rs == [] then {}
    else KeySet(rs[..|rs| - 1]) + (match KeyOf(rs[|rs| - 1]) case None => {} case Some(k) => {k})
  }

  /** The collection names the batch writes to. */
  function Names(rs: seq<Document>): set<string> {
    set k | k in KeySet(rs) :: k.name
  }

  /** The last record of the batch with natural key `k`. */
  function LastFor(rs: seq<Document>, k: Key): (r: Option<Document>)
    ensures r.Some? <==> k in KeySet(rs)
    ensures r.Some? ==> KeyOf(r.value) == Some(k)
    decreases |rs|
  {
    if rs == [] then None
    else if KeyOf(rs[|rs| - 1]) == Some(k) then Some(rs[|rs| - 1])
    else LastFor(rs[..|rs| - 1], k)
  }

  /** The keys of the batch that had no document before the call. */
  function NewKeys(db: DbState, rs: seq<Document>): set<Key> {
    set k | k in KeySet(rs) && Lookup(db, k).None?
  }

  // ---------------------------------------------------------------------------------------
  // Facts about Locate and ReplaceOne

  lemma LocateIsFirst(c: Collection, d: Value, i: nat)
    requires i < |c| && Matches(c[i], d)
    requires forall j :: 0 <= j < i ==> !Matches(c[j], d)
    ensures Locate(c, d) == Some(i)
  {
  }

  /** Two collections that agree on which positions the filter selects agree on `Locate`. */
  lemma LocateCongruent(c1: Collection, c2: Collection, d: Value)
    requires |c1| == |c2|
    requires forall j :: 0 <= j < |c1| ==> (Matches(c1[j], d) <==> Matches(c2[j], d))
    ensures Locate(c1, d) == Locate(c2, d)
  {
    match Locate(c1, d)
    case Some(i) => LocateIsFirst(c2, d, i);
    case None =>
  }

  lemma LocateAppend(c: Collection, x: StoredDoc, d: Value)
    ensures Locate(c + [x], d) ==
      match Locate(c, d)
      case Some(i) => Some(i)
      case None => if Matches(x, d) then Some(|c|) else None
  {
    var c' := c + [x];
    match Locate(c, d)
    case Some(i) =>
      assert c'[i] == c[i];
      LocateIsFirst(c', d, i);
    case None =>
      if Matches(x, d) {
        assert c'[|c|] == x;
        LocateIsFirst(c', d, |c|);
      } else {
        assert forall j :: 0 <= j < |c| ==> c'[j] == c[j];
      }
  }

  /** `replace_one` leaves the record at its key and every other key as it was. */
  lemma ReplaceOneLookup(db: DbState, name: string, rec: Document, k: Key)
    requires "date" in rec
    ensures Lookup(ReplaceOne(db, name, rec).0, k) ==
      if k == Key(name, rec["date"]) then Some(rec) else Lookup(db, k)
  {
    var db' := ReplaceOne(db, name, rec).0;
    if k.name == name {
      var c := FetchAllData(db, name);
      var c' := FetchAllData(db', name);
      var d := rec["date"];
      match Locate(c, d)
      case Some(i) =>
        assert c' == c[i := StoredDoc(c[i].id, rec)];
        if k.date == d {
          LocateIsFirst(c', d, i);
        } else {
          LocateCongruent(c, c', k.date);
          match Locate(c, k.date)
          case None =>
          case Some(j) => assert j != i;
        }
      case None =>
        assert c' == c + [StoredDoc(db.nextId, rec)];
        LocateAppend(c, StoredDoc(db.nextId, rec), k.date);
        match Locate(c, k.date)
        case None =>
        case Some(j) => assert c'[j] == c[j];
    }
  }

  lemma DocsAtAppend(c: Collection, x: StoredDoc, d: Value)
    requires !Matches(x, d)
    ensures DocsAt(c + [x], d) == DocsAt(c, d)
    decreases |c|
  {
    if c == [] {
      assert DocsAt([x], d) == DocsAt([x][1..], d);
    } else {
      assert (c + [x])[1..] == c[1..] + [x];
      DocsAtAppend(c[1..], x, d);
    }
  }

  lemma DocsAtUpdate(c: Collection, i: nat, x: StoredDoc, d: Value)
    requires i < |c| && !Matches(c[i], d) && !Matches(x, d)
    ensures DocsAt(c[i := x], d) == DocsAt(c, d)
    decreases |c|
  {
    if i > 0 {
      assert c[i := x][1..] == c[1..][i - 1 := x];
      DocsAtUpdate(c[1..], i - 1, x, d);
    } else {
      assert c[i := x][1..] == c[1..];
    }
  }

  /** The documents at every other date of the collection are untouched by `replace_one`. */
  lemma ReplaceOneDocsAt(db: DbState, name: string, rec: Document, d: Value)
    requires "date" in rec && d != rec["date"]
    ensures DocsAt(FetchAllData(ReplaceOne(db, name, rec).0, name), d) == DocsAt(FetchAllData(db, name), d)
  {
    var c := FetchAllData(db, name);
    match Locate(c, rec["date"])
    case Some(i) => DocsAtUpdate(c, i, StoredDoc(c[i].id, rec), d);
    case None => DocsAtAppend(c, StoredDoc(db.nextId, rec), d);
  }

  /** `replace_one` keeps every collection free of duplicate dates. */
  lemma ReplaceOneUnique(db: DbState, name: string, rec: Document)
    requires "date" in rec
    requires UniqueStore(db)
    ensures UniqueStore(ReplaceOne(db, name, rec).0)
  {
    var db' := ReplaceOne(db, name, rec).0;
    var c := FetchAllData(db, name);
    var c' := FetchAllData(db', name);
    forall n | n in db'.collections ensures UniqueDates(db'.collections[n]) {
      if n != name {
        assert db'.collections[n] == FetchAllData(db', n) == FetchAllData(db, n);
      } else {
        assert UniqueDates(c);
        match Locate(c, rec["date"])
        case Some(i) =>
          assert c' == c[i := StoredDoc(c[i].id, rec)];
        case None =>
          assert c' == c + [StoredDoc(db.nextId, rec)];
          forall i, j | 0 <= i < j < |c'| && "date" in c'[i].body && "date" in c'[j].body
            ensures c'[i].body["date"] != c'[j].body["date"]
          {
            if j == |c| { assert !Matches(c[i], rec["date"]); }
          }
      }
    }
  }

  // ---------------------------------------------------------------------------------------
  // Facts about a whole batch

  lemma UpsertOkLast(db: DbState, rs: seq<Document>)
    requires rs != []
    ensures Upsert(db, rs).ok <==> Upsert(db, rs[..|rs| - 1]).ok && KeyOf(rs[|rs| - 1]).Some?
  {
  }

  lemma RoutableLast(rs: seq<Document>)
    requires rs != []
    ensures Routable(rs) <==> Routable(rs[..|rs| - 1]) && KeyOf(rs[|rs| - 1]).Some?
  {
    assert forall i :: 0 <= i < |rs| - 1 ==> rs[..|rs| - 1][i] == rs[i];
  }

  /** The batch fails exactly when one of its records cannot be routed, whatever the store. */
  lemma {:induction false} UpsertOkIffRoutable(db: DbState, rs: seq<Document>)
    ensures Upsert(db, rs).ok <==> Routable(rs)
    decreases |rs|
  {
    if rs != [] {
      UpsertOkIffRoutable(db, rs[..|rs| - 1]);
      UpsertOkLast(db, rs);
      RoutableLast(rs);
    }
  }

  /** Once a prefix of the batch has raised, the rest of the batch is never processed. */
  lemma {:induction false} UpsertStopsAtFailure(db: DbState, rs: seq<Document>, i: nat)
    requires i <= |rs| && !Upsert(db, rs[..i]).ok
    ensures Upsert(db, rs) == Upsert(db, rs[..i])
    decreases |rs|
  {
    if i < |rs| {
      var p := rs[..|rs| - 1];
      assert p[..i] == rs[..i];
      UpsertStopsAtFailure(db, p, i);
    } else {
      assert rs[..i] == rs;
    }
  }

  /** Record `i` of the loop, when it can be routed: it is written with `ReplaceOne` and
      counted when it matched. */
  lemma UpsertRoutedStep(db: DbState, rs: seq<Document>, i: nat, k: Key)
    requires i < |rs| && Upsert(db, rs[..i]).ok && KeyOf(rs[i]) == Some(k)
    ensures var u := Upsert(db, rs[..i]); var r := ReplaceOne(u.db, k.name, rs[i]);
      Upsert(db, rs[..i + 1]) == UpsertOutcome(r.0, u.updates + (if r.1 then 1 else 0), true)
  {
    UpsertSnoc(db, rs, i);
  }

  /** Record `i` of the loop, when it cannot be routed: the batch ends there and leaves what
      the earlier records wrote. */
  lemma UpsertUnroutedStep(db: DbState, rs: seq<Document>, i: nat)
    requires i < |rs| && KeyOf(rs[i]).None?
    ensures !Upsert(db, rs).ok && Upsert(db, rs).db == Upsert(db, rs[..i]).db
  {
    UpsertSnoc(db, rs, i);
    if Upsert(db, rs[..i]).ok {
      UpsertStopsAtFailure(db, rs, i + 1);
    } else {
      UpsertStopsAtFailure(db, rs, i);
    }
  }

  lemma KeySetPrefix(rs: seq<Document>)
    requires rs != []
    ensures KeySet(rs) == KeySet(rs[..|rs| - 1]) +
      (match KeyOf(rs[|rs| - 1]) case None => {} case Some(k) => {k})
  {
  }

  /** After a successful call, each key of the batch holds the LAST record with that key. */
  lemma {:induction false} UpsertLastWriter(db: DbState, rs: seq<Document>)
    requires Upsert(db, rs).ok
    ensures forall k :: k in KeySet(rs) ==> Lookup(Upsert(db, rs).db, k) == LastFor(rs, k)
    decreases |rs|
  {
    if rs != [] {
      var p := rs[..|rs| - 1];
      var x := rs[|rs| - 1];
      UpsertLastWriter(db, p);
      var kx := KeyOf(x).value;
      var prev := Upsert(db, p).db;
      forall k | k in KeySet(rs) ensures Lookup(Upsert(db, rs).db, k) == LastFor(rs, k) {
        ReplaceOneLookup(prev, kx.name, x, k);
      }
    }
  }

  /** Keys the batch does not write read as before, at every position of their collection. */
  lemma {:induction false} UpsertFrame(db: DbState, rs: seq<Document>)
    ensures forall k :: k !in KeySet(rs) ==> Lookup(Upsert(db, rs).db, k) == Lookup(db, k)
    ensures forall k :: k !in KeySet(rs) ==>
      DocsAt(FetchAllData(Upsert(db, rs).db, k.name), k.date) == DocsAt(FetchAllData(db, k.name), k.date)
    ensures forall n :: n !in Names(rs) ==>
      FetchAllData(Upsert(db, rs).db, n) == FetchAllData(db, n) &&
      (n in Upsert(db, rs).db.collections <==> n in db.collections)
    decreases |rs|
  {
    if rs != [] {
      var p := rs[..|rs| - 1];
      var x := rs[|rs| - 1];
      UpsertFrame(db, p);
      var prev := Upsert(db, p);
      if prev.ok && KeyOf(x).Some? {
        var kx := KeyOf(x).value;
        KeySetPrefix(rs);
        forall k | k !in KeySet(rs)
          ensures Lookup(Upsert(db, rs).db, k) == Lookup(db, k)
          ensures DocsAt(FetchAllData(Upsert(db, rs).db, k.name), k.date) == DocsAt(FetchAllData(db, k.name), k.date)
        {
          ReplaceOneLookup(prev.db, kx.name, x, k);
          if k.name == kx.name {
            ReplaceOneDocsAt(prev.db, kx.name, x, k.date);
          }
        }
        assert kx.name in Names(rs);
        assert Names(p) <= Names(rs);
      }
    }
  }

  /** If no collection held two documents with the same `date`, none does afterwards. */
  lemma {:induction false} UpsertKeepsUnique(db: DbState, rs: seq<Document>)
    requires UniqueStore(db)
    ensures UniqueStore(Upsert(db, rs).db)
    decreases |rs|
  {
    if rs != [] {
      var p := rs[..|rs| - 1];
      var x := rs[|rs| - 1];
      UpsertKeepsUnique(db, p);
      var prev := Upsert(db, p);
      if prev.ok && KeyOf(x).Some? {
        ReplaceOneUnique(prev.db, KeyOf(x).value.name, x);
      }
    }
  }

  /** Collections are only ever created under lower-cased names. */
  lemma {:induction false} UpsertKeepsLowerNames(db: DbState, rs: seq<Document>)
    requires LowerNames(db)
    ensures LowerNames(Upsert(db, rs).db)
    decreases |rs|
  {
    if rs != [] {
      UpsertKeepsLowerNames(db, rs[..|rs| - 1]);
    }
  }

  /** After a successful call, a key has a document iff it had one before or the batch wrote it. */
  lemma UpsertPresence(db: DbState, rs: seq<Document>)
    requires Upsert(db, rs).ok
    ensures forall k :: Lookup(Upsert(db, rs).db, k).Some? <==> Lookup(db, k).Some? || k in KeySet(rs)
  {
    UpsertLastWriter(db, rs);
    UpsertFrame(db, rs);
  }

  lemma NewKeysStep(db: DbState, rs: seq<Document>)
    requires rs != [] && KeyOf(rs[|rs| - 1]).Some?
    ensures var kx := KeyOf(rs[|rs| - 1]).value;
      NewKeys(db, rs) == NewKeys(db, rs[..|rs| - 1]) + (if Lookup(db, kx).None? then {kx} else {})
  {
    KeySetPrefix(rs);
  }

  /** The batch's new keys routed to collection `name`. */
  function NewKeysIn(db: DbState, rs: seq<Document>, name: string): set<Key> {
    set k | k in NewKeys(db, rs) && k.name == name
  }

  /** Whether the last record of a successful batch matched, in terms of the state before the batch. */
  lemma LastMatched(db: DbState, rs: seq<Document>)
    requires rs != [] && Upsert(db, rs).ok
    ensures Upsert(db, rs[..|rs| - 1]).ok && KeyOf(rs[|rs| - 1]).Some?
    ensures var kx := KeyOf(rs[|rs| - 1]).value;
      Lookup(Upsert(db, rs[..|rs| - 1]).db, kx).Some? <==> Lookup(db, kx).Some? || kx in KeySet(rs[..|rs| - 1])
  {
    UpsertPresence(db, rs[..|rs| - 1]);
  }

  lemma CardinalityStep(a: set<Key>, b: set<Key>, k: Key, isNew: bool, seen: bool)
    requires b == a + (if isNew then {k} else {})
    requires isNew ==> (k in a <==> seen)
    ensures |b| == |a| + (if isNew && !seen then 1 else 0)
  {
    if !isNew || seen {
      assert b == a;
    }
  }

  /** The last record of a successful batch adds a new key exactly when it did not match. */
  lemma NewKeysGrowth(db: DbState, rs: seq<Document>)
    requires rs != [] && Upsert(db, rs).ok
    ensures Upsert(db, rs[..|rs| - 1]).ok
    ensures |NewKeys(db, rs)| == |NewKeys(db, rs[..|rs| - 1])| +
      (if Lookup(Upsert(db, rs[..|rs| - 1]).db, KeyOf(rs[|rs| - 1]).value).Some? then 0 else 1)
  {
    var p := rs[..|rs| - 1];
    var kx := KeyOf(rs[|rs| - 1]).value;
    LastMatched(db, rs);
    NewKeysStep(db, rs);
    var isNew := Lookup(db, kx).None?;
    if isNew {
      assert kx in NewKeys(db, p) <==> kx in KeySet(p);
    }
    CardinalityStep(NewKeys(db, p), NewKeys(db, rs), kx, isNew, kx in KeySet(p));
  }

  /** The logged insert count, rows - update, is the number of distinct keys that were new. */
  lemma {:induction false} UpsertInsertCount(db: DbState, rs: seq<Document>)
    requires Upsert(db, rs).ok
    ensures |rs| - Upsert(db, rs).updates == |NewKeys(db, rs)|
    decreases |rs|
  {
    if rs != [] {
      NewKeysGrowth(db, rs);
      UpsertInsertCount(db, rs[..|rs| - 1]);
    }
  }

  lemma NewKeysInStep(db: DbState, rs: seq<Document>, name: string)
    requires rs != [] && KeyOf(rs[|rs| - 1]).Some?
    ensures var kx := KeyOf(rs[|rs| - 1]).value;
      NewKeysIn(db, rs, name) == NewKeysIn(db, rs[..|rs| - 1], name) +
        (if Lookup(db, kx).None? && kx.name == name then {kx} else {})
  {
    NewKeysStep(db, rs);
  }

  lemma NewKeysInGrowth(db: DbState, rs: seq<Document>, name: string)
    requires rs != [] && Upsert(db, rs).ok
    ensures Upsert(db, rs[..|rs| - 1]).ok
    ensures var kx := KeyOf(rs[|rs| - 1]).value;
      |NewKeysIn(db, rs, name)| == |NewKeysIn(db, rs[..|rs| - 1], name)| +
        (if kx.name == name && Lookup(Upsert(db, rs[..|rs| - 1]).db, kx).None? then 1 else 0)
  {
    var p := rs[..|rs| - 1];
    var kx := KeyOf(rs[|rs| - 1]).value;
    LastMatched(db, rs);
    NewKeysInStep(db, rs, name);
    var isNew := Lookup(db, kx).None? && kx.name == name;
    if isNew {
      assert kx in NewKeysIn(db, p, name) <==> kx in KeySet(p);
    }
    CardinalityStep(NewKeysIn(db, p, name), NewKeysIn(db, rs, name), kx, isNew, kx in KeySet(p));
  }

  /** Per collection: its document count grows by the number of new keys routed to it. */
  lemma {:induction false} UpsertCollectionSize(db: DbState, rs: seq<Document>, name: string)
    requires Upsert(db, rs).ok
    ensures |FetchAllData(Upsert(db, rs).db, name)| == |FetchAllData(db, name)| + |NewKeysIn(db, rs, name)|
    decreases |rs|
  {
    if rs != [] {
      var p := rs[..|rs| - 1];
      var x := rs[|rs| - 1];
      NewKeysInGrowth(db, rs, name);
      UpsertCollectionSize(db, p, name);
      assert Upsert(db, rs).db == ReplaceOne(Upsert(db, p).db, KeyOf(x).value.name, x).0;
    }
  }

  /** Reading a partition that was empty after a successful batch gives one document per
      distinct date the batch routed to it. */
  lemma ReadAfterUpsert(db: DbState, rs: seq<Document>, name: string)
    requires Upsert(db, rs).ok && FetchAllData(db, name) == []
    ensures |FetchAllData(Upsert(db, rs).db, name)| == |set k | k in KeySet(rs) && k.name == name|
  {
    UpsertCollectionSize(db, rs, name);
    assert NewKeysIn(db, rs, name) == (set k | k in KeySet(rs) && k.name == name);
  }

  /** The collections are created under lower-case names only, and `fetch_all_data` does not
      normalise its argument: a mixed-case name reads nothing. */
  lemma FetchIsCaseSensitive(db: DbState, state: string)
    requires LowerNames(db) && !IsLower(state)
    ensures FetchAllData(db, state) == []
  {
  }

  // ---------------------------------------------------------------------------------------
  // Idempotence

  /** `t` is `c` with, at the first document of each of its dates, the body replaced by the
      batch's last record for that key (if any); ids and every other document unchanged. */
  function Overlay(c: Collection, i: nat, name: string, b: seq<Document>): StoredDoc
    requires i < |c|
  {
    if "date" in c[i].body && Locate(c, c[i].body["date"]) == Some(i) then
      match LastFor(b, Key(name, c[i].body["date"]))
      case Some(r) => StoredDoc(c[i].id, r)
      case None => c[i]
    else c[i]
  }

  ghost predicate OverlaidColl(c: Collection, t: Collection, name: string, b: seq<Document>) {
    |t| == |c| && forall i :: 0 <= i < |c| ==> t[i] == Overlay(c, i, name, b)
  }

  ghost predicate Overlaid(s: DbState, t: DbState, b: seq<Document>) {
    && t.nextId == s.nextId
    && t.collections.Keys == s.collections.Keys
    && forall n :: n in s.collections ==> OverlaidColl(s.collections[n], t.collections[n], n, b)
  }

  lemma OverlayDates(c: Collection, t: Collection, name: string, b: seq<Document>, d: Value)
    requires OverlaidColl(c, t, name, b)
    ensures Locate(t, d) == Locate(c, d)
  {
    forall j | 0 <= j < |c| ensures Matches(c[j], d) <==> Matches(t[j], d) {
      if "date" in c[j].body && Locate(c, c[j].body["date"]) == Some(j) {
        var key := Key(name, c[j].body["date"]);
        if LastFor(b, key).Some? {
          assert KeyOf(LastFor(b, key).value) == Some(key);
        }
      }
    }
    LocateCongruent(c, t, d);
  }

  /** One more record whose key already exists keeps the overlay relation. */
  lemma ReplayStep(s: DbState, tp: DbState, b: seq<Document>)
    requires b != [] && KeyOf(b[|b| - 1]).Some?
    requires Lookup(s, KeyOf(b[|b| - 1]).value).Some?
    requires Overlaid(s, tp, b[..|b| - 1])
    ensures ReplaceOne(tp, KeyOf(b[|b| - 1]).value.name, b[|b| - 1]).1
    ensures Overlaid(s, ReplaceOne(tp, KeyOf(b[|b| - 1]).value.name, b[|b| - 1]).0, b)
  {
    var p := b[..|b| - 1];
    var x := b[|b| - 1];
    var kx := KeyOf(x).value;
    var c := FetchAllData(s, kx.name);
    var tc := tp.collections[kx.name];
    OverlayDates(c, tc, kx.name, p, kx.date);
    var i := Locate(c, kx.date).value;
    var t := ReplaceOne(tp, kx.name, x).0;
    assert t.collections == tp.collections[kx.name := tc[i := StoredDoc(tc[i].id, x)]];
    forall n | n in s.collections ensures OverlaidColl(s.collections[n], t.collections[n], n, b) {
      var cn := s.collections[n];
      forall j | 0 <= j < |cn| ensures t.collections[n][j] == Overlay(cn, j, n, b) {
        assert tp.collections[n][j] == Overlay(cn, j, n, p);
        if "date" in cn[j].body {
          var key := Key(n, cn[j].body["date"]);
          if key != kx {
            assert LastFor(b, key) == LastFor(p, key);
          }
        }
      }
    }
  }

  /** Upserting a batch whose keys all exist already matches every record, inserts nothing,
      and only overwrites bodies at the documents the keys locate. */
  lemma {:induction false} Replay(s: DbState, b: seq<Document>)
    requires Routable(b)
    requires forall k :: k in KeySet(b) ==> Lookup(s, k).Some?
    ensures Upsert(s, b).ok && Upsert(s, b).updates == |b|
    ensures Overlaid(s, Upsert(s, b).db, b)
    decreases |b|
  {
    if b == [] {
      forall n | n in s.collections ensures OverlaidColl(s.collections[n], s.collections[n], n, b) {
      }
    } else {
      var p := b[..|b| - 1];
      assert forall i :: 0 <= i < |p| ==> p[i] == b[i];
      KeySetPrefix(b);
      Replay(s, p);
      ReplayStep(s, Upsert(s, p).db, b);
    }
  }

  /** Applying the same batch twice leaves the database as one application did, and the
      second call counts every row as an update (insert = 0). */
  lemma UpsertIdempotent(db: DbState, rs: seq<Document>)
    requires Upsert(db, rs).ok
    ensures Upsert(Upsert(db, rs).db, rs) == UpsertOutcome(Upsert(db, rs).db, |rs|, true)
  {
    var s := Upsert(db, rs).db;
    UpsertOkIffRoutable(db, rs);
    UpsertPresence(db, rs);
    UpsertLastWriter(db, rs);
    Replay(s, rs);
    var t := Upsert(s, rs).db;
    forall n | n in s.collections ensures t.collections[n] == s.collections[n] {
      var c := s.collections[n];
      forall i | 0 <= i < |c| ensures t.collections[n][i] == c[i] {
        if "date" in c[i].body && Locate(c, c[i].body["date"]) == Some(i) {
          var key := Key(n, c[i].body["date"]);
          if LastFor(rs, key).Some? {
            assert Lookup(s, key) == LastFor(rs, key);
          }
        }
      }
    }
    assert t.collections == s.collections;
  }

  /** The first record of a batch that cannot be routed. */
  function FirstUnroutable(rs: seq<Document>): (i: nat)
    requires !Routable(rs)
    ensures i < |rs| && KeyOf(rs[i]).None? && Routable(rs[..i])
  {
    if KeyOf(rs[0]).None? then 0
    else
      var i := 1 + FirstUnroutable(rs[1..]);
      assert forall j :: 1 <= j < i ==> rs[..i][j] == rs[1..][..i - 1][j - 1];
      i
  }

  /** Re-applying a batch, whether or not it raised midway, leaves the store as the first
      application left it and ends the same way: the records before the failing one are
      rewritten with what they already hold, and the same record raises again. */
  lemma UpsertRetryIdempotent(db: DbState, rs: seq<Document>)
    ensures Upsert(Upsert(db, rs).db, rs).db == Upsert(db, rs).db
    ensures Upsert(Upsert(db, rs).db, rs).ok == Upsert(db, rs).ok
  {
    if Upsert(db, rs).ok {
      UpsertIdempotent(db, rs);
    } else {
      UpsertOkIffRoutable(db, rs);
      var i := FirstUnroutable(rs);
      UpsertOkIffRoutable(db, rs[..i]);
      UpsertUnroutedStep(db, rs, i);
      UpsertIdempotent(db, rs[..i]);
      UpsertUnroutedStep(Upsert(db, rs).db, rs, i);
    }
  }
}
