/** From the ingest endpoint to the table: the wire format, the partitions and the persister together. */
module Pipeline {
  import opened Text
  import opened Calendar
  import opened Ranges
  import opened Wire
  import opened Partitions
  import opened Stream
  import opened Persister
  import opened Draining
  import opened Backend

  /** With the partitions of the migration, a record is acceptable exactly when it falls between the start of the month
      before the migration and the end of the sixth month after it, for a known device, with storable columns. */
  lemma AcceptedInstants(db: Schema, year: nat, month: nat, r: Record)
    requires 1 <= year && 1 <= month <= 12 && db.partitions == Tiling(MonthIndex(year, month))
    ensures db.Accepts(r) <==>
      && MonthStart(MonthIndex(year, month) - 1) <= r.recordedAt < MonthStart(MonthIndex(year, month) + 7)
      && r.deviceId in db.devices && db.isJson(r.metadata)
      && (r.runtimeSeconds.Some? ==> -0x8000_0000 <= r.runtimeSeconds.value < 0x8000_0000)
  {
    hide Covered, MonthStart;
    TilesCoverExactly(MonthIndex(year, month), r.recordedAt);
  }

  /** Readings as the batch endpoint accepts them, with identifiers that are new to the table. */
  predicate Ingestible(db: Schema, table: seq<Row>, readings: seq<Reading>, ids: seq<nat>, device: nat) {
    && |ids| == |readings| && IsUuid(device)
    && (forall k :: 0 <= k < |readings| ==> readings[k].Valid() && IsUuid(ids[k]))
    && (forall k :: 0 <= k < |readings| ==>
          && db.Accepts(RecordOf(readings[k], ids[k], device))
          && !HasKey(table, Key(RecordOf(readings[k], ids[k], device))))
    && (forall j, k :: 0 <= j < k < |readings| ==> ids[j] != ids[k])
  }

  /** The log ends with the encodings of the readings. */
  predicate Encoded(log: seq<Fields>, start: nat, readings: seq<Reading>, ids: seq<nat>, device: nat, site: nat) {
    && |ids| == |readings| && |log| == start + |readings|
    && forall k :: 0 <= k < |readings| ==>
         readings[k].Valid() && log[start + k] == Encode(readings[k], ids[k], device, site)
  }

  lemma EncodedEntry(
      db: Schema, table: seq<Row>, log: seq<Fields>, start: nat, readings: seq<Reading>, ids: seq<nat>, device: nat,
      site: nat, i: nat)
    requires Ingestible(db, table, readings, ids, device) && Encoded(log, start, readings, ids, device, site)
    requires start <= i < |log|
    ensures Parseable(log, i) && Decode(log[i]) == Some(RecordOf(readings[i - start], ids[i - start], device))
    ensures db.Accepts(Decode(log[i]).value) && !HasKey(table, Key(Decode(log[i]).value))
  {
    hide Decode, Encode, Schema.Accepts, HasKey;
    DecodeInvertsEncode(readings[i - start], ids[i - start], device, site);
    assert log[start + (i - start)] == log[i];
  }

  lemma EncodedKeysDiffer(
      db: Schema, table: seq<Row>, log: seq<Fields>, start: nat, readings: seq<Reading>, ids: seq<nat>, device: nat,
      site: nat, i: nat, j: nat)
    requires Ingestible(db, table, readings, ids, device) && Encoded(log, start, readings, ids, device, site)
    requires start <= i < |log| && start <= j < |log| && i != j
    ensures Parseable(log, i) && Parseable(log, j) && Key(Decode(log[i]).value) != Key(Decode(log[j]).value)
  {
    hide Decode, Encode, Schema.Accepts, HasKey;
    EncodedEntry(db, table, log, start, readings, ids, device, site, i);
    EncodedEntry(db, table, log, start, readings, ids, device, site, j);
    assert ids[i - start] != ids[j - start];
  }

  lemma IngestedIsStorable(db: Schema, s: State, readings: seq<Reading>, ids: seq<nat>, device: nat, site: nat)
    requires Ingestible(db, s.table, readings, ids, device) && Encoded(s.log, s.next, readings, ids, device, site)
    ensures Storable(db, s, Range(s.next, |s.log|))
  {
    hide Decode, Encode, Schema.Accepts, HasKey, Ingestible, Range;
    forall i | i in Range(s.next, |s.log|) && Parseable(s.log, i)
      ensures db.Accepts(Decode(s.log[i]).value) && !HasKey(s.table, Key(Decode(s.log[i]).value))
    {
      EncodedEntry(db, s.table, s.log, s.next, readings, ids, device, site, i);
    }
    forall i, j | i in Range(s.next, |s.log|) && j in Range(s.next, |s.log|) && i != j && Parseable(s.log, i)
        && Parseable(s.log, j)
      ensures Key(Decode(s.log[i]).value) != Key(Decode(s.log[j]).value)
    {
      EncodedKeysDiffer(db, s.table, s.log, s.next, readings, ids, device, site, i, j);
    }
  }

  lemma IngestedIsParseable(db: Schema, s: State, readings: seq<Reading>, ids: seq<nat>, device: nat, site: nat)
    requires Ingestible(db, s.table, readings, ids, device) && Encoded(s.log, s.next, readings, ids, device, site)
    ensures ParseableIn(s.log, Range(s.next, |s.log|)) == Range(s.next, |s.log|)
  {
    hide Decode, Encode, Schema.Accepts, HasKey, Ingestible, Parseable, Range, ParseableIn;
    forall i | i in Range(s.next, |s.log|) ensures Parseable(s.log, i) {
      EncodedEntry(db, s.table, s.log, s.next, readings, ids, device, site, i);
    }
    AllParseable(s.log, Range(s.next, |s.log|));
  }

  lemma {:induction false} AllParseable(log: seq<Fields>, batch: seq<nat>)
    requires forall i :: i in batch ==> Parseable(log, i)
    ensures ParseableIn(log, batch) == batch
  {
    hide Parseable;
    if batch != [] {
      assert batch == batch[..|batch| - 1] + [batch[|batch| - 1]];
      AllParseable(log, batch[..|batch| - 1]);
    }
  }

  lemma RowIsReading(
      db: Schema, s: State, rows: seq<Row>, readings: seq<Reading>, ids: seq<nat>, device: nat, site: nat, k: nat)
    requires Ingestible(db, s.table, readings, ids, device) && Encoded(s.log, s.next, readings, ids, device, site)
    requires Holds(rows, s.log, Range(s.next, |s.log|)) && k < |readings|
    ensures |rows| == |readings| && rows[k].record == RecordOf(readings[k], ids[k], device)
  {
    hide Decode, Encode, Schema.Accepts, HasKey, RecordOf, Parseable;
    EncodedEntry(db, s.table, s.log, s.next, readings, ids, device, site, s.next + k);
    assert Range(s.next, |s.log|)[k] == s.next + k;
  }

  /** The table after draining is the old one followed by one row per reading. */
  predicate Gained(before: seq<Row>, after: seq<Row>, readings: seq<Reading>, ids: seq<nat>, device: nat)
    requires |ids| == |readings| && forall k :: 0 <= k < |readings| ==> readings[k].Valid()
  {
    && |after| == |before| + |readings| && after[..|before|] == before
    && forall k :: 0 <= k < |readings| ==> after[|before| + k].record == RecordOf(readings[k], ids[k], device)
  }

  lemma DrainedIsGained(
      db: Schema, s: State, table: seq<Row>, readings: seq<Reading>, ids: seq<nat>, device: nat, site: nat)
    requires Ingestible(db, s.table, readings, ids, device) && Encoded(s.log, s.next, readings, ids, device, site)
    requires |table| >= |s.table| && table[..|s.table|] == s.table
    requires Holds(table[|s.table|..], s.log, ParseableIn(s.log, Range(s.next, |s.log|)))
    ensures Gained(s.table, table, readings, ids, device)
  {
    hide Schema.Accepts, HasKey, RecordOf, Decode, Encode, Parseable, ParseableIn, Range;
    IngestedIsParseable(db, s, readings, ids, device, site);
    forall k | 0 <= k < |readings| ensures table[|s.table| + k].record == RecordOf(readings[k], ids[k], device) {
      RowIsReading(db, s, table[|s.table|..], readings, ids, device, site, k);
    }
    RangeLength(s.next, |s.log|);
  }

  lemma RangeLength(lo: nat, hi: nat)
    requires lo <= hi
    ensures |Range(lo, hi)| == hi - lo
  {
  }

  /** The batch endpoint takes up to this many readings. */
  const MAX_READINGS: nat := 500

  /** A batch of readings posted to a service whose stream is drained, then one uninterrupted persister: the table
      gains exactly one row per reading, in order, holding the reading's own instant and values, and nothing else,
      however eagerly Redis trims the stream in the meantime. */
  method IngestAndPersist(
    store: Store, db: Schema, readings: seq<Reading>, ids: seq<nat>, device: nat, site: nat, trims: seq<nat>,
    receivedAt: int, w: nat, clock: nat -> real, idle: nat -> set<nat>, now: nat -> int)
    requires Quiet(db, store.View()) && store.next == |store.log|
    requires Ingestible(db, store.table, readings, ids, device) && 1 <= |readings| <= MAX_READINGS
      && |trims| == |readings|
    modifies store
    ensures Gained(old(store.table), store.table, readings, ids, device)
    ensures store.pel == map[] && store.next == |store.log| == |old(store.log)| + |readings|
    ensures store.dropped == old(store.dropped)
      && store.acked == old(store.acked) + Interval(|old(store.log)|, |store.log|)
  {
    hide Inv, Decode, Encode, Storable, Schema.Accepts, HasKey, Holds, ParseableIn, Gained, RecordOf, Parseable,
        LiveOf, Legal, After;
    ghost var before := store.View();
    QuietMeansEmpty(db, before);
    ghost var run := store.IngestBatch(db, readings, ids, device, site, trims, receivedAt);
    ghost var s := store.View();
    Appended(db, before, run, s, readings, ids, device, site);
    var _ := store.RunConsumerLoop(db, w, clock, idle, now);
    DrainedIsGained(db, s, store.table, readings, ids, device, site);
  }

  lemma Appended(
      db: Schema, before: State, run: seq<Action>, s: State, readings: seq<Reading>, ids: seq<nat>, device: nat,
      site: nat)
    requires Quiet(db, before) && Legal(db, before, run) && s == After(db, before, run)
    requires s.pel == map[] && s.workers == map[]
    requires Ingestible(db, s.table, readings, ids, device) && Encoded(s.log, s.next, readings, ids, device, site)
    ensures Quiet(db, s)
  {
    hide Inv, Storable, Ingestible, Encoded, Legal, After;
    RunKeepsInv(db, before, run);
    IngestedIsStorable(db, s, readings, ids, device, site);
  }
}
