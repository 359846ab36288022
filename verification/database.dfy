/**
 * database.py: the handle on the `corona` database, whose `upsert_data` loop updates the
 * collections in place, and the single-slot, time-expiring cache in front of the reads.
 */
module Database {
  import opened Outcomes
  import opened Documents
  import opened Store

  /** RESULT_CACHE_EXPIRATION, in seconds. */
  const ResultCacheExpiration: real := 10.0

  /** The summary line `upsert_data` logs when its loop has run to the end. */
  datatype UpsertLog = UpsertLog(rows: nat, update: nat, insert: int)

  /** The MongoDB database `corona` as the module-level client sees it. */
  class CoronaDb {
    var collections: map<string, Collection>
    var nextId: nat

    function State(): DbState
      reads this
    {
      DbState(collections, nextId)
    }

    constructor ()
      ensures State() == DbState(map[], 0)
    {
      collections, nextId := map[], 0;
    }

    /** `upsert_data(df)`, given `df.to_dict('records')`. `ok` is false when routing a record
        raised; the records before it stay written and nothing is logged. */
    method UpsertData(records: seq<Document>) returns (ok: bool, ghost log: Option<UpsertLog>)
      modifies this
      ensures State() == Upsert(old(State()), records).db
      ensures ok == Upsert(old(State()), records).ok
      ensures ok ==> log == Some(UpsertLog(|records|, Upsert(old(State()), records).updates,
                                           |records| - Upsert(old(State()), records).updates))
      ensures !ok ==> log == None
    {
      ghost var start := State();
      var updateCount: nat := 0;
      var i := 0;
      while i < |records|
        invariant 0 <= i <= |records|
        invariant Upsert(start, records[..i]).ok
        invariant Upsert(start, records[..i]).db == DbState(collections, nextId)
        invariant Upsert(start, records[..i]).updates == updateCount
      {
        var record := records[i];
        match KeyOf(record) {
          case None =>
            UpsertUnroutedStep(start, records, i);
            return false, None;
          case Some(k) =>
            UpsertRoutedStep(start, records, i, k);
            var next := ReplaceOne(DbState(collections, nextId), k.name, record);
            collections, nextId := next.0.collections, next.0.nextId;
            if next.1 {
              updateCount := updateCount + 1;
            }
        }
        i := i + 1;
      }
      assert records[..i] == records;
      ok, log := true, Some(UpsertLog(|records|, updateCount, |records| - updateCount));
    }
  }

  /** A successful `upsert_data` logs `update` and `insert` within `[0, rows]`, and `insert`
      is the number of natural keys of the batch that had no document yet. */
  lemma UpsertLogCounts(db: DbState, records: seq<Document>)
    requires Upsert(db, records).ok
    ensures var u := Upsert(db, records).updates;
      0 <= u <= |records| && 0 <= |records| - u <= |records| && |records| - u == |NewKeys(db, records)|
  {
    UpsertInsertCount(db, records);
  }

  /** The entry stored under the key 'cache' of `_fetch_all_data_as_df_cache`, with the time
      it was stored. */
  datatype Entry = Entry(value: Option<seq<Document>>, stamp: real)

  /** `_work()`: None for an empty or unknown collection, otherwise its documents with the
      `_id` column dropped, in storage order. */
  function Work(db: DbState, state: string): (r: Option<seq<Document>>)
    ensures r.None? <==> FetchAllData(db, state) == []
    ensures r.Some? ==> |r.value| == |FetchAllData(db, state)|
    ensures r.Some? ==> forall i :: 0 <= i < |r.value| ==> r.value[i] == FetchAllData(db, state)[i].body
  {
    var docs := FetchAllData(db, state);
    if |docs| == 0 then None
    else Some(seq(|docs|, i requires 0 <= i < |docs| => docs[i].body))
  }

  /** Does the slot hold an entry younger than the expiration age at time `now`? */
  predicate Live(slot: Option<Entry>, now: real) {
    slot.Some? && now - slot.value.stamp < ResultCacheExpiration
  }

  /** `fetch_all_data_as_df(state, allow_cached)` at time `now`: what it returns and what the
      slot holds afterwards. A live entry is served only when `allow_cached` is set; every
      other call reads the store and overwrites the slot, even with None. */
  function ReadThrough(slot: Option<Entry>, db: DbState, state: string, allowCached: bool, now: real)
    : (r: (Option<seq<Document>>, Option<Entry>))
    ensures r.1.Some? && r.1.value.value == r.0
    ensures r.0 == Work(db, state) || (allowCached && Live(slot, now) && r.0 == slot.value.value)
  {
    if allowCached && Live(slot, now) then (slot.value.value, slot)
    else (Work(db, state), Some(Entry(Work(db, state), now)))
  }

  /** A cache hit depends neither on the store nor on the partition asked for: the single
      slot serves whatever the last store read returned. */
  lemma HitIgnoresPartition(slot: Option<Entry>, db1: DbState, db2: DbState, s1: string, s2: string, now: real)
    requires Live(slot, now)
    ensures ReadThrough(slot, db1, s1, true, now) == ReadThrough(slot, db2, s2, true, now) == (slot.value.value, slot)
  {
  }

  /** Without `allow_cached`, or with an absent or expired entry, the store is read and the
      result replaces the slot with a fresh timestamp. */
  lemma MissReadsStore(slot: Option<Entry>, db: DbState, state: string, allowCached: bool, now: real)
    requires !(allowCached && Live(slot, now))
    ensures ReadThrough(slot, db, state, allowCached, now) == (Work(db, state), Some(Entry(Work(db, state), now)))
  {
  }

  /** A cached read less than the expiration age after a store read returns that read's result,
      whatever was written to the store in between and whatever partition is asked for. */
  lemma RepeatWithinExpiration(slot: Option<Entry>, db: DbState, db': DbState, s: string, s': string,
                               allowCached: bool, t: real, t': real)
    requires !(allowCached && Live(slot, t))
    requires t <= t' < t + ResultCacheExpiration
    ensures var (r1, slot1) := ReadThrough(slot, db, s, allowCached, t);
      ReadThrough(slot1, db', s', true, t') == (r1, slot1)
  {
  }

  /** An empty partition is cached too: within the expiration age a cached read returns None
      even if documents were written since. */
  lemma EmptyResultIsCached(slot: Option<Entry>, db: DbState, db': DbState, s: string, s': string,
                            allowCached: bool, t: real, t': real)
    requires !(allowCached && Live(slot, t)) && FetchAllData(db, s) == []
    requires t <= t' < t + ResultCacheExpiration
    ensures ReadThrough(ReadThrough(slot, db, s, allowCached, t).1, db', s', true, t').0 == None
  {
    RepeatWithinExpiration(slot, db, db', s, s', allowCached, t, t');
  }

  /** Once the expiration age has passed, a cached read goes back to the store. */
  lemma RepeatAfterExpiration(slot: Option<Entry>, db: DbState, db': DbState, s: string, s': string,
                              allowCached: bool, t: real, t': real)
    requires !(allowCached && Live(slot, t))
    requires t' >= t + ResultCacheExpiration
    ensures ReadThrough(ReadThrough(slot, db, s, allowCached, t).1, db', s', true, t').0 == Work(db', s')
  {
  }

  /** `_fetch_all_data_as_df_cache`: an expiring dictionary with `max_len=1` that is only ever
      used under the key 'cache', so one slot. */
  class ResultCache {
    var slot: Option<Entry>

    constructor ()
      ensures slot == None
    {
      slot := None;
    }

    /** `fetch_all_data_as_df(state, allow_cached)` against the database `db`, at time `now`.
        `storeRead` tells whether `_work` ran. */
    method FetchAllDataAsDf(db: CoronaDb, state: string, allowCached: bool, now: real)
      returns (r: Option<seq<Document>>, ghost storeRead: bool)
      modifies this
      ensures (r, slot) == ReadThrough(old(slot), db.State(), state, allowCached, now)
      ensures storeRead <==> !(allowCached && Live(old(slot), now))
    {
      if allowCached {
        if slot.Some? && now - slot.value.stamp < ResultCacheExpiration {
          return slot.value.value, false;
        }
        // An expired entry is deleted by the lookup, which then raises KeyError.
        slot := None;
      }
      r := Work(db.State(), state);
      storeRead := true;
      slot := Some(Entry(r, now));
    }
  }
}
