/** Entries that cannot be acknowledged any more, and what they do to the worker that claims them. */
module Recovery {
  import opened Ranges
  import opened Wire
  import opened Stream
  import opened StreamTheorems
  import opened Persister
  import opened Draining

  // ----- Over runs

  /** The table would take the entry's record: it meets the constraints and its key is free. */
  predicate Insertable(db: Schema, s: State, i: nat)
    requires Parseable(s.log, i)
  {
    db.Accepts(Decode(s.log[i]).value) && !HasKey(s.table, Key(Decode(s.log[i]).value))
  }

  /** The entry is in the stream, unacknowledged, and no worker is about to acknowledge it. */
  predicate Waiting(s: State, i: nat) {
    && s.head <= i < |s.log| && i !in s.acked
    && forall w :: w in s.workers && s.workers[w].Acking? ==> i !in s.workers[w].ids
  }

  /** An entry acknowledged in some run had an insertable record to begin with. */
  lemma AckedWasInsertable(db: Schema, s: State, run: seq<Action>, i: nat)
    requires Inv(db, s) && Waiting(s, i) && Parseable(s.log, i)
    requires Legal(db, s, run) && i in After(db, s, run).acked
    ensures Insertable(db, s, i)
  {
    hide Decode, Schema.Accepts, Legal, After, Inv, HasRow;
    RunKeepsInv(db, s, run);
    RunGrows(db, s, run);
    var t := After(db, s, run);
    assert t.log[i] == s.log[i];
    if HasRow(s.table, i) { StrandedForever(db, s, run, i); }
    var k := RowOfAcked(db, t, i);
    forall j | 0 <= j < |s.table| ensures Key(s.table[j].record) != Key(t.table[k].record) {
      assert s.table[j] == t.table[j];
      RowAt(s.table, j);
      RowsDiffer(db, t, j, k);
    }
  }

  lemma RowAt(rows: seq<Row>, j: nat)
    requires j < |rows|
    ensures HasRow(rows, rows[j].source)
  {
  }

  /** A reading whose record the table refuses, because its timestamp lies in no partition, say, is never stored and
      never acknowledged in any run, although the endpoint accepted it. */
  lemma RefusedReadingIsNeverStored(db: Schema, run: seq<Action>, i: nat, r: Reading, id: nat, device: nat, site: nat)
    requires Legal(db, INIT, run) && r.Valid() && IsUuid(id) && IsUuid(device) && !db.Accepts(RecordOf(r, id, device))
    requires i < |After(db, INIT, run).log| && After(db, INIT, run).log[i] == Encode(r, id, device, site)
    ensures i !in After(db, INIT, run).acked && !HasRow(After(db, INIT, run).table, i)
  {
    hide Schema.Accepts, Decode, Encode, Legal, After, RecordOf;
    RunKeepsInv(db, INIT, run);
    DecodeInvertsEncode(r, id, device, site);
  }

  // ----- A crash between commit and acknowledgement

  /** One reading, one worker, and a crash right after the commit. */
  function CrashingRun(fields: Fields, w: nat, now: int): seq<Action> {
    [Add(fields)] + [Read(w, now)] + [Parse(w)] + [Commit(w)] + [Crash(w)]
  }

  /** For every reading the table accepts, this run from the empty stream strands its entry: it is stored and pending,
      and no continuation acknowledges it. */
  lemma CrashStrandsReading(
      db: Schema, r: Reading, id: nat, device: nat, site: nat, w: nat, now: int, later: seq<Action>)
    requires r.Valid() && IsUuid(id) && IsUuid(device) && db.Accepts(RecordOf(r, id, device))
    ensures var run := CrashingRun(Encode(r, id, device, site), w, now);
      && Legal(db, INIT, run)
      && After(db, INIT, run).table == [Row(0, RecordOf(r, id, device), now)]
      && After(db, INIT, run).pel == map[0 := w]
      && (Legal(db, After(db, INIT, run), later) ==> 0 !in After(db, After(db, INIT, run), later).acked)
  {
    hide Schema.Accepts, Decode, Encode, Legal, After, RecordOf, Inv;
    var fields := Encode(r, id, device, site);
    DecodeInvertsEncode(r, id, device, site);
    var run := CrashingRun(fields, w, now);
    UpToCrash(db, fields, w, now);
    var s := After(db, INIT, run);
    RunKeepsInv(db, INIT, run) by { EmptyInv(db); }
    if Legal(db, s, later) {
      RowAt(s.table, 0);
      StrandedForever(db, s, later, 0);
    }
  }

  lemma EmptyInv(db: Schema)
    ensures Inv(db, INIT)
  {
  }

  function Delivering(fields: Fields, w: nat, phase: map<nat, Phase>): State {
    State([fields], 0, 1, map[0 := w], {}, {}, [], phase)
  }

  lemma UpToParse(db: Schema, fields: Fields, w: nat, now: int)
    requires Decode(fields).Some?
    ensures var run := [Add(fields)] + [Read(w, now)] + [Parse(w)];
      Legal(db, INIT, run) && After(db, INIT, run) == Delivering(fields, w, map[w := Parsing([0], 1, now)])
  {
    hide Decode, Legal, After;
    One(db, INIT, Add(fields));
    FirstRead(db, fields, w, now);
    Grow(db, [Add(fields)], Read(w, now), INIT.(log := [fields]),
        Delivering(fields, w, map[w := Parsing([0], 0, now)]));
    Grow(db, [Add(fields)] + [Read(w, now)], Parse(w),
         Delivering(fields, w, map[w := Parsing([0], 0, now)]), Delivering(fields, w, map[w := Parsing([0], 1, now)]));
  }

  lemma OneRecord(db: Schema, fields: Fields, w: nat, now: int)
    requires Decode(fields).Some?
    ensures var s := Delivering(fields, w, map[w := Parsing([0], 1, now)]);
      ParseableIn(s.log, [0]) == [0] && Stream.Parsed(s, w) && Records(s, w) == [Row(0, Decode(fields).value, now)]
  {
    hide Decode;
    assert [0][..0] == [];
    assert ParseableIn([fields], []) == [];
  }

  lemma UpToCrash(db: Schema, fields: Fields, w: nat, now: int)
    requires Decode(fields).Some? && db.Accepts(Decode(fields).value)
    ensures Legal(db, INIT, CrashingRun(fields, w, now))
    ensures After(db, INIT, CrashingRun(fields, w, now))
      == Delivering(fields, w, map[]).(table := [Row(0, Decode(fields).value, now)])
  {
    hide Schema.Accepts, Decode, Legal, After, Copyable, ParseableIn, Records;
    var run := [Add(fields)] + [Read(w, now)] + [Parse(w)];
    UpToParse(db, fields, w, now);
    var parsed := Delivering(fields, w, map[w := Parsing([0], 1, now)]);
    OneRecord(db, fields, w, now);
    var row := Row(0, Decode(fields).value, now);
    SingleRow(db, row);
    assert [] + [row] == [row];
    var committed := Delivering(fields, w, map[w := Acking([0])]).(table := [row]);
    Grow(db, run, Commit(w), parsed, committed);
    assert committed.workers - {w} == map[];
    Grow(db, run + [Commit(w)], Crash(w), committed, committed.(workers := map[]));
  }

  lemma SingleRow(db: Schema, row: Row)
    requires db.Accepts(row.record)
    ensures Copyable(db, [], [row])
  {
    hide Schema.Accepts;
    assert [] + [row] == [row];
  }

  lemma FirstRead(db: Schema, fields: Fields, w: nat, now: int)
    ensures var s := INIT.(log := [fields]);
      && Enabled(db, s, Read(w, now))
      && Apply(db, s, Read(w, now)) == s.(next := 1, pel := map[0 := w], workers := map[w := Parsing([0], 0, now)])
  {
    assert Range(0, 1) == [0];
  }

  lemma Grow(db: Schema, run: seq<Action>, a: Action, s: State, t: State)
    requires Legal(db, INIT, run) && After(db, INIT, run) == s && Enabled(db, s, a) && Apply(db, s, a) == t
    ensures Legal(db, INIT, run + [a]) && After(db, INIT, run + [a]) == t
  {
    hide Enabled, Apply, Legal, After;
    One(db, s, a);
    Compose(db, INIT, run, [a]);
  }

  // ----- One pass of the loop

  lemma ReadKeepsAcked(db: Schema, s: State, w: nat, now: int)
    ensures s.acked <= AfterRead(db, s, w, now).acked && AfterRead(db, s, w, now).next == s.next + |Fresh(s)|
  {
    hide Copyable, Decode, RowsOf;
  }

  lemma OutcomeKeepsPosition(db: Schema, s: State, batch: seq<nat>, now: int)
    ensures var t := Outcome(db, s, batch, now).0; t.next == s.next && t.log == s.log && t.head == s.head
  {
    hide Copyable, Decode, RowsOf;
  }

  /** A pass that reclaims, with its exact condition: the claimed batch is acknowledged whole, and the pass goes on to
      read new entries, if and only if the batch is storable. Otherwise the table and the delivery position stay as
      they were, every parseable entry of the batch stays pending, and only its unparseable ones are acknowledged. */
  lemma ReclaimIsAllOrNothing(db: Schema, s: State, w: nat, idle: set<nat>, now: int)
    requires Inv(db, s) && s.workers == map[]
    ensures var batch, t := Claimable(s, idle, s.next), AfterPass(db, s, w, true, idle, now);
      && ((forall i :: i in batch ==> i in t.acked) <==> Storable(db, s, batch))
      && t.next == s.next + (if Storable(db, s, batch) then |Fresh(s)| else 0)
      && (!Storable(db, s, batch) ==> t.table == s.table && forall i :: i in batch ==>
            (i in t.acked <==> !Parseable(s.log, i)) && (i in t.pel <==> Parseable(s.log, i)))
  {
    hide Decode, Schema.Accepts, Outcome, AfterRead, Inv, KeysUnique, HasKey, Parseable;
    var claim, batch, s1 := ClaimAction(s, w, idle, now), Claimable(s, idle, s.next), Claimed(s, w, idle);
    ClaimActionApplies(db, s, w, idle, now);
    StepKeepsInv(db, s, claim);
    LoneWorkerForgotten(db, Apply(db, s, claim));
    BatchIsAllOrNothing(db, s1, batch, now);
    OutcomeKeepsPosition(db, s1, batch, now);
    FatesExclude(db, s1, batch, now);
    if batch == [] {
      ReadKeepsAcked(db, s1, w, now);
    } else {
      ReadKeepsAcked(db, Outcome(db, s1, batch, now).0, w, now);
    }
  }

  /** Pending and acknowledged exclude each other after a batch, too. */
  lemma FatesExclude(db: Schema, s: State, batch: seq<nat>, now: int)
    requires Inv(db, s)
    ensures var t := Outcome(db, s, batch, now).0; forall i :: i in t.pel ==> i !in t.acked
  {
    hide Decode, Schema.Accepts, Copyable, RowsOf;
  }

  /** Seen from one entry: a reclaiming pass that takes a pending parseable entry acknowledges it exactly if
      everything it takes is storable together. */
  lemma PassAcksExactly(db: Schema, s: State, w: nat, idle: set<nat>, now: int, i: nat)
    requires Inv(db, s) && s.workers == map[] && AmongFirst(s, idle, i) && Parseable(s.log, i)
    ensures i in AfterPass(db, s, w, true, idle, now).acked <==> Storable(db, s, Claimable(s, idle, s.next))
  {
    hide Decode, Schema.Accepts, AfterPass, HasKey, Storable, Parseable;
    PendingWasDelivered(db, s, i);
    ReclaimIsAllOrNothing(db, s, w, idle, now);
  }

  lemma PendingWasDelivered(db: Schema, s: State, i: nat)
    requires Inv(db, s) && i in s.pel
    ensures i < s.next <= |s.log| && i !in s.acked
  {
  }

  /** An idle entry that the table refuses blocks every reclaiming pass of a lone worker that gets to it: nothing is
      stored, nothing new is read, and the entry stays pending. */
  lemma RefusedEntryBlocksPass(db: Schema, s: State, w: nat, idle: set<nat>, now: int, i: nat)
    requires Inv(db, s) && s.workers == map[]
    requires AmongFirst(s, idle, i)
    requires Parseable(s.log, i) && !Insertable(db, s, i)
    ensures var t := AfterPass(db, s, w, true, idle, now);
      && t.table == s.table && t.next == s.next && i in t.pel && i !in t.acked
      && forall j :: j in s.pel && Parseable(s.log, j) && j in Claimable(s, idle, s.next) ==>
           j in t.pel && j !in t.acked
  {
    hide Decode, Schema.Accepts, AfterPass, HasKey;
    PendingWasDelivered(db, s, i);
    ReclaimIsAllOrNothing(db, s, w, idle, now);
  }
}
