/** The persister's consumer group as a transition system: entries of the telemetry stream, the pending
    entries list shared by any number of workers, and the table that batches are copied into. */
module Stream {
  import opened Text
  import opened Ranges
  import opened Wire
  import opened Partitions

  const BATCH_SIZE: nat := 500
  const STREAM_MAXLEN: nat := 500_000

  // ----- The telemetry table

  /** A stored row: the record, the worker's clock reading, and (for the proofs) the entry it came from. */
  datatype Row = Row(source: nat, record: Record, createdAt: int)

  /** The constraints of the table other than its primary key. */
  datatype Schema = Schema(partitions: seq<Partition>, devices: set<nat>, isJson: string -> bool) {
    predicate Accepts(r: Record) {
      && Covered(partitions, r.recordedAt)
      && r.deviceId in devices
      && (r.runtimeSeconds.Some? ==> -0x8000_0000 <= r.runtimeSeconds.value < 0x8000_0000)
      && isJson(r.metadata)
    }
  }

  /** The primary key (recorded_at, id). */
  function Key(r: Record): (int, nat) { (r.recordedAt, r.id) }

  predicate KeysUnique(rows: seq<Row>) {
    forall j, k :: 0 <= j < k < |rows| ==> Key(rows[j].record) != Key(rows[k].record)
  }

  predicate HasKey(rows: seq<Row>, key: (int, nat)) {
    exists k :: 0 <= k < |rows| && Key(rows[k].record) == key
  }

  predicate HasRow(rows: seq<Row>, entry: nat) {
    exists k :: 0 <= k < |rows| && rows[k].source == entry
  }

  /** A COPY in one transaction stores all the rows or, on any violation, none. */
  predicate Copyable(db: Schema, table: seq<Row>, rows: seq<Row>) {
    (forall k :: 0 <= k < |rows| ==> db.Accepts(rows[k].record)) && KeysUnique(table + rows)
  }

  // ----- Entries and batches

  predicate Parseable(log: seq<Fields>, entry: nat) {
    entry < |log| && Decode(log[entry]).Some?
  }

  /** The entries of a batch that become records, in order. */
  function ParseableIn(log: seq<Fields>, batch: seq<nat>): (ids: seq<nat>)
    ensures forall i :: i in ids <==> i in batch && Parseable(log, i)
    ensures forall k :: 0 <= k < |ids| ==> Parseable(log, ids[k])
  {
    if batch == [] then []
    else
      var last := batch[|batch| - 1];
      assert batch == batch[..|batch| - 1] + [last];
      ParseableIn(log, batch[..|batch| - 1]) + (if Parseable(log, last) then [last] else [])
  }

  function UnparseableIn(log: seq<Fields>, batch: seq<nat>): set<nat> {
    set i | i in batch && !Parseable(log, i)
  }

  function RowOf(log: seq<Fields>, entry: nat, now: int): Row
    requires Parseable(log, entry)
  {
    Row(entry, Decode(log[entry]).value, now)
  }

  function RowsOf(log: seq<Fields>, ids: seq<nat>, now: int): (rows: seq<Row>)
    requires forall k :: 0 <= k < |ids| ==> Parseable(log, ids[k])
    ensures |rows| == |ids| && forall k :: 0 <= k < |rows| ==> rows[k] == RowOf(log, ids[k], now)
  {
    seq(|ids|, k requires 0 <= k < |ids| && Parseable(log, ids[k]) => RowOf(log, ids[k], now))
  }

  // ----- States and steps

  /** Where a worker stands between two awaits; a worker without a phase holds no batch. */
  datatype Phase =
    | Parsing(batch: seq<nat>, done: nat, now: int)
    | Acking(ids: seq<nat>)

  /** `log` holds every entry ever added, numbered in stream order; entries below `head` have been trimmed,
      entries from `next` on have not been delivered to the group. */
  datatype State = State(
    log: seq<Fields>, head: nat, next: nat,
    pel: map<nat, nat>, acked: set<nat>, dropped: set<nat>,
    table: seq<Row>, workers: map<nat, Phase>)

  const INIT := State([], 0, 0, map[], {}, {}, [], map[])

  datatype Action =
    | Add(fields: Fields)
    | Trim(count: nat)
    | Read(w: nat, now: int)
    | Claim(w: nat, batch: seq<nat>, gone: set<nat>, now: int)
    | Parse(w: nat)
    | Finish(w: nat)
    | Commit(w: nat)
    | CopyFail(w: nat)
    | Ack(w: nat)
    | Crash(w: nat)

  /** XACK: entries no longer in the pending list are ignored. */
  function Acknowledge(s: State, ids: set<nat>): State {
    s.(pel := s.pel - ids, acked := s.acked + (ids * s.pel.Keys))
  }

  function Leave(s: State, w: nat): State { s.(workers := s.workers - {w}) }

  /** Pending entries of one worker. */
  function Owned(batch: seq<nat>, w: nat): map<nat, nat> { map i | i in batch :: w }

  predicate Parsed(s: State, w: nat) {
    w in s.workers && s.workers[w].Parsing? && s.workers[w].done == |s.workers[w].batch|
  }

  function Records(s: State, w: nat): seq<Row>
    requires Parsed(s, w)
  {
    RowsOf(s.log, ParseableIn(s.log, s.workers[w].batch), s.workers[w].now)
  }

  predicate Enabled(db: Schema, s: State, a: Action) {
    match a
    case Add(_) => true
    case Trim(count) => s.head + count + STREAM_MAXLEN <= |s.log|
    case Read(w, _) => w !in s.workers && s.next < |s.log|
    case Claim(w, batch, gone, _) =>
      && w !in s.workers
      && Increasing(batch) && |batch| <= BATCH_SIZE
      && (forall i :: i in batch ==> i in s.pel && s.head <= i)
      && (forall i :: i in gone ==> i in s.pel && i < s.head)
    case Parse(w) => w in s.workers && s.workers[w].Parsing? && s.workers[w].done < |s.workers[w].batch|
    case Finish(w) => Parsed(s, w) && Records(s, w) == []
    case Commit(w) => Parsed(s, w) && Records(s, w) != [] && Copyable(db, s.table, Records(s, w))
    case CopyFail(w) => Parsed(s, w) && Records(s, w) != [] && !Copyable(db, s.table, Records(s, w))
    case Ack(w) => w in s.workers && s.workers[w].Acking?
    case Crash(w) => w in s.workers
  }

  function Apply(db: Schema, s: State, a: Action): State
    requires Enabled(db, s, a)
  {
    match a
    case Add(fields) => s.(log := s.log + [fields])
    case Trim(count) =>
      // entries trimmed before they were delivered can never be read any more
      var head := s.head + count;
      var next := Max(s.next, head);
      s.(head := head, next := next, dropped := s.dropped + Interval(s.next, next))
    case Read(w, now) =>
      var hi := Min(s.next + BATCH_SIZE, |s.log|);
      s.(next := hi, pel := s.pel + Owned(Range(s.next, hi), w),
         workers := s.workers[w := Parsing(Range(s.next, hi), 0, now)])
    case Claim(w, batch, gone, now) =>
      // XAUTOCLAIM takes over live entries and forgets the trimmed ones it meets; which entries are idle is left open
      // here, and Reclaim adds the clock that decides it
      s.(pel := (s.pel - gone) + Owned(batch, w), dropped := s.dropped + gone,
         workers := if batch == [] then s.workers else s.workers[w := Parsing(batch, 0, now)])
    case Parse(w) =>
      var Parsing(batch, done, now) := s.workers[w];
      var s' := if Parseable(s.log, batch[done]) then s else Acknowledge(s, {batch[done]});
      s'.(workers := s.workers[w := Parsing(batch, done + 1, now)])
    case Commit(w) =>
      s.(table := s.table + Records(s, w),
         workers := s.workers[w := Acking(ParseableIn(s.log, s.workers[w].batch))])
    case Ack(w) => Leave(Acknowledge(s, set i | i in s.workers[w].ids), w)
    case Finish(w) => Leave(s, w)
    case CopyFail(w) => Leave(s, w)
    case Crash(w) => Leave(s, w)
  }

  // ----- Runs

  predicate Legal(db: Schema, s: State, run: seq<Action>)
    decreases |run|, 1
  {
    run == [] ||
    (Legal(db, s, run[..|run| - 1]) && Enabled(db, After(db, s, run[..|run| - 1]), run[|run| - 1]))
  }

  function After(db: Schema, s: State, run: seq<Action>): State
    requires Legal(db, s, run)
    decreases |run|, 2
  {
    if run == [] then s else Apply(db, After(db, s, run[..|run| - 1]), run[|run| - 1])
  }

  // ----- The invariant

  ghost predicate EntriesAccounted(s: State) {
    && s.head <= s.next <= |s.log|
    && (forall i :: i in s.pel || i in s.acked || i in s.dropped <==> 0 <= i < s.next)
    && (forall i :: i in s.pel ==> i !in s.acked && i !in s.dropped)
    && (forall i :: i in s.acked ==> i !in s.dropped)
  }

  predicate DropsWereTrimmed(s: State) {
    && (forall i :: i in s.dropped ==> i < s.head)
    && (s.head > 0 ==> s.head + STREAM_MAXLEN <= |s.log|)
  }

  predicate PhaseSound(s: State, p: Phase) {
    match p
    case Parsing(batch, done, _) => done <= |batch| && forall i :: i in batch ==> i < s.next
    case Acking(ids) => forall i :: i in ids ==> i < s.next && Parseable(s.log, i) && HasRow(s.table, i)
  }

  predicate RowSound(db: Schema, s: State, row: Row) {
    row.source < s.next && row.source < |s.log| && Decode(s.log[row.source]) == Some(row.record)
        && db.Accepts(row.record)
  }

  predicate TableSound(db: Schema, s: State) {
    && KeysUnique(s.table)
    && (forall k :: 0 <= k < |s.table| ==> RowSound(db, s, s.table[k]))
  }

  predicate AckedAreStored(s: State) {
    forall i :: i in s.acked && Parseable(s.log, i) ==> HasRow(s.table, i)
  }

  ghost predicate Inv(db: Schema, s: State) {
    && EntriesAccounted(s)
    && DropsWereTrimmed(s)
    && (forall w :: w in s.workers ==> PhaseSound(s, s.workers[w]))
    && TableSound(db, s)
    && AckedAreStored(s)
  }

  // ----- Every step keeps the invariant

  lemma AppendKeepsRows(rows: seq<Row>, more: seq<Row>, entry: nat)
    requires HasRow(rows, entry)
    ensures HasRow(rows + more, entry)
  {
    var k :| 0 <= k < |rows| && rows[k].source == entry;
    assert (rows + more)[k].source == entry;
  }

  lemma AddKeepsInv(db: Schema, s: State, fields: Fields)
    requires Inv(db, s)
    ensures Inv(db, s.(log := s.log + [fields]))
  {
  }

  lemma TrimKeepsInv(db: Schema, s: State, count: nat)
    requires Inv(db, s) && Enabled(db, s, Trim(count))
    ensures Inv(db, Apply(db, s, Trim(count)))
  {
  }

  lemma ReadKeepsInv(db: Schema, s: State, w: nat, now: int)
    requires Inv(db, s) && Enabled(db, s, Read(w, now))
    ensures Inv(db, Apply(db, s, Read(w, now)))
  {
  }

  lemma ClaimKeepsInv(db: Schema, s: State, w: nat, batch: seq<nat>, gone: set<nat>, now: int)
    requires Inv(db, s) && Enabled(db, s, Claim(w, batch, gone, now))
    ensures Inv(db, Apply(db, s, Claim(w, batch, gone, now)))
  {
  }

  lemma AcknowledgeKeepsInv(db: Schema, s: State, ids: set<nat>)
    requires Inv(db, s)
    requires forall i :: i in ids && Parseable(s.log, i) ==> HasRow(s.table, i)
    ensures Inv(db, Acknowledge(s, ids))
  {
  }

  lemma WorkerKeepsInv(db: Schema, s: State, w: nat, p: Phase)
    requires Inv(db, s) && PhaseSound(s, p)
    ensures Inv(db, s.(workers := s.workers[w := p]))
  {
  }

  lemma LeaveKeepsInv(db: Schema, s: State, w: nat)
    requires Inv(db, s)
    ensures Inv(db, Leave(s, w))
  {
  }

  /** Rows that pass the COPY belong to delivered entries and carry exactly what those entries decode to. */
  lemma CopyKeepsInv(db: Schema, s: State, ids: seq<nat>, now: int)
    requires Inv(db, s)
    requires forall k :: 0 <= k < |ids| ==> ids[k] < s.next && Parseable(s.log, ids[k])
    requires Copyable(db, s.table, RowsOf(s.log, ids, now))
    ensures Inv(db, s.(table := s.table + RowsOf(s.log, ids, now)))
    ensures forall i :: i in ids ==> HasRow(s.table + RowsOf(s.log, ids, now), i)
  {
    hide Decode, Schema.Accepts;
    var rows := RowsOf(s.log, ids, now);
    var s' := s.(table := s.table + rows);
    forall k | 0 <= k < |s'.table| ensures RowSound(db, s', s'.table[k]) {
      if k < |s.table| {
        assert RowSound(db, s, s.table[k]);
      } else {
        assert s'.table[k] == rows[k - |s.table|];
      }
    }
    forall i | HasRow(s.table, i) ensures HasRow(s'.table, i) {
      AppendKeepsRows(s.table, rows, i);
    }
    forall i | i in ids ensures HasRow(s'.table, i) {
      var k :| 0 <= k < |ids| && ids[k] == i;
      assert s'.table[|s.table| + k].source == i;
    }
  }

  lemma ParseKeepsInv(db: Schema, s: State, w: nat)
    requires Inv(db, s) && Enabled(db, s, Parse(w))
    ensures Inv(db, Apply(db, s, Parse(w)))
  {
    hide Decode, EntriesAccounted, TableSound, DropsWereTrimmed, AckedAreStored;
    var Parsing(batch, done, now) := s.workers[w];
    AcknowledgeKeepsInv(db, s, if Parseable(s.log, batch[done]) then {} else {batch[done]});
    var s' := if Parseable(s.log, batch[done]) then s else Acknowledge(s, {batch[done]});
    WorkerKeepsInv(db, s', w, Parsing(batch, done + 1, now));
  }

  lemma CommitKeepsInv(db: Schema, s: State, w: nat)
    requires Inv(db, s) && Enabled(db, s, Commit(w))
    ensures Inv(db, Apply(db, s, Commit(w)))
  {
    var Parsing(batch, _, now) := s.workers[w];
    var ids := ParseableIn(s.log, batch);
    forall k | 0 <= k < |ids| ensures ids[k] < s.next && Parseable(s.log, ids[k]) { assert ids[k] in ids; }
    CopyKeepsInv(db, s, ids, now);
    WorkerKeepsInv(db, s.(table := s.table + Records(s, w)), w, Acking(ids));
  }

  lemma AckKeepsInv(db: Schema, s: State, w: nat)
    requires Inv(db, s) && Enabled(db, s, Ack(w))
    ensures Inv(db, Apply(db, s, Ack(w)))
  {
    var ids := set i | i in s.workers[w].ids;
    AcknowledgeKeepsInv(db, s, ids);
    LeaveKeepsInv(db, Acknowledge(s, ids), w);
  }

  lemma StepKeepsInv(db: Schema, s: State, a: Action)
    requires Inv(db, s) && Enabled(db, s, a)
    ensures Inv(db, Apply(db, s, a))
  {
    hide Inv;
    match a
    case Add(fields) => AddKeepsInv(db, s, fields);
    case Trim(count) => TrimKeepsInv(db, s, count);
    case Read(w, now) => ReadKeepsInv(db, s, w, now);
    case Claim(w, batch, gone, now) => ClaimKeepsInv(db, s, w, batch, gone, now);
    case Parse(w) => ParseKeepsInv(db, s, w);
    case Commit(w) => CommitKeepsInv(db, s, w);
    case Ack(w) => AckKeepsInv(db, s, w);
    case Finish(w) => LeaveKeepsInv(db, s, w);
    case CopyFail(w) => LeaveKeepsInv(db, s, w);
    case Crash(w) => LeaveKeepsInv(db, s, w);
  }

  /** The invariant holds after every run of any number of workers, crashes and reclaims included. */
  lemma {:induction false} RunKeepsInv(db: Schema, s: State, run: seq<Action>)
    requires Inv(db, s) && Legal(db, s, run)
    ensures Inv(db, After(db, s, run))
  {
    if run != [] {
      RunKeepsInv(db, s, run[..|run| - 1]);
      StepKeepsInv(db, After(db, s, run[..|run| - 1]), run[|run| - 1]);
    }
  }
}
