/** The persister worker: one batch at a time, and the loop that drains the stream. */
module Persister {
  import opened Ranges
  import opened Wire
  import opened Stream
  import opened StreamTheorems

  // ----- One batch, seen as a whole

  /** What processing a batch without interference does: the state afterwards and whether it returned normally. */
  function Outcome(db: Schema, s: State, batch: seq<nat>, now: int): (State, bool) {
    var s1 := Acknowledge(s, UnparseableIn(s.log, batch));
    var ids := ParseableIn(s.log, batch);
    if ids == [] then (s1, true)
    else if Copyable(db, s.table, RowsOf(s.log, ids, now)) then
      (Acknowledge(s1.(table := s.table + RowsOf(s.log, ids, now)), set i | i in ids), true)
    else (s1, false)
  }

  /** A caller's view of when a batch can be stored: every record is acceptable, its key is not yet in the
      table, and no two records of the batch share a key. */
  predicate Storable(db: Schema, s: State, batch: seq<nat>) {
    && (forall i :: i in batch && Parseable(s.log, i) ==>
          db.Accepts(Decode(s.log[i]).value) && !HasKey(s.table, Key(Decode(s.log[i]).value)))
    && (forall i, j :: i in batch && j in batch && i != j && Parseable(s.log, i) && Parseable(s.log, j) ==>
          Key(Decode(s.log[i]).value) != Key(Decode(s.log[j]).value))
  }

  lemma ParseableFromBatch(log: seq<Fields>, batch: seq<nat>, last: nat)
    requires forall j :: 0 <= j < |batch| ==> batch[j] < last
    ensures forall k :: 0 <= k < |ParseableIn(log, batch)| ==> ParseableIn(log, batch)[k] < last
  {
    hide Parseable;
    var ids := ParseableIn(log, batch);
    forall k | 0 <= k < |ids| ensures ids[k] < last {
      assert ids[k] in ids;
      var j :| 0 <= j < |batch| && batch[j] == ids[k];
    }
  }

  lemma {:induction false} ParseableInIncreases(log: seq<Fields>, batch: seq<nat>)
    requires Increasing(batch)
    ensures Increasing(ParseableIn(log, batch))
  {
    if batch != [] {
      hide Parseable;
      var init := batch[..|batch| - 1];
      ParseableInIncreases(log, init);
      ParseableFromBatch(log, init, batch[|batch| - 1]);
    }
  }

  lemma CopyableWhenStorable(db: Schema, s: State, batch: seq<nat>, now: int)
    requires Increasing(batch) && KeysUnique(s.table) && Storable(db, s, batch)
    ensures Copyable(db, s.table, RowsOf(s.log, ParseableIn(s.log, batch), now))
  {
    hide Schema.Accepts, Decode;
    ParseableInIncreases(s.log, batch);
    var ids := ParseableIn(s.log, batch);
    var rows := RowsOf(s.log, ids, now);
    forall k | 0 <= k < |rows| ensures db.Accepts(rows[k].record) && !HasKey(s.table, Key(rows[k].record)) {
      assert ids[k] in ids;
    }
    forall j, k | 0 <= j < k < |rows| ensures Key(rows[j].record) != Key(rows[k].record) {
      assert ids[j] in ids && ids[k] in ids && ids[j] < ids[k];
    }
    forall j, k | 0 <= j < k < |s.table + rows|
      ensures Key((s.table + rows)[j].record) != Key((s.table + rows)[k].record)
    {
      if j < |s.table| <= k {
        assert !HasKey(s.table, Key(rows[k - |s.table|].record));
      }
    }
  }

  lemma CopiedKeysAreNew(table: seq<Row>, rows: seq<Row>, k: nat)
    requires KeysUnique(table + rows) && k < |rows|
    ensures !HasKey(table, Key(rows[k].record))
    ensures forall l :: 0 <= l < |rows| && l != k ==> Key(rows[l].record) != Key(rows[k].record)
  {
    var all := table + rows;
    assert all[|table| + k] == rows[k];
    forall j | 0 <= j < |table| ensures Key(table[j].record) != Key(rows[k].record) {
      assert all[j] == table[j];
    }
    forall l | 0 <= l < |rows| && l != k ensures Key(rows[l].record) != Key(rows[k].record) {
      assert all[|table| + l] == rows[l];
    }
  }

  lemma StorableWhenCopyable(db: Schema, s: State, batch: seq<nat>, now: int)
    requires Copyable(db, s.table, RowsOf(s.log, ParseableIn(s.log, batch), now))
    ensures Storable(db, s, batch)
  {
    hide Schema.Accepts, Decode, KeysUnique, HasKey;
    var ids := ParseableIn(s.log, batch);
    var rows := RowsOf(s.log, ids, now);
    forall i | i in batch && Parseable(s.log, i)
      ensures db.Accepts(Decode(s.log[i]).value) && !HasKey(s.table, Key(Decode(s.log[i]).value))
    {
      var k :| 0 <= k < |ids| && ids[k] == i;
      CopiedKeysAreNew(s.table, rows, k);
    }
    forall i, j | i in batch && j in batch && i != j && Parseable(s.log, i) && Parseable(s.log, j)
      ensures Key(Decode(s.log[i]).value) != Key(Decode(s.log[j]).value)
    {
      var k :| 0 <= k < |ids| && ids[k] == i;
      var l :| 0 <= l < |ids| && ids[l] == j;
      CopiedKeysAreNew(s.table, rows, k);
    }
  }

  lemma SucceedsExactly(db: Schema, s: State, batch: seq<nat>, now: int)
    requires KeysUnique(s.table) && Increasing(batch)
    ensures Outcome(db, s, batch, now).1 <==> Storable(db, s, batch)
  {
    hide Schema.Accepts, Decode, KeysUnique, HasKey, RowsOf, Copyable;
    if Storable(db, s, batch) { CopyableWhenStorable(db, s, batch, now); }
    if Copyable(db, s.table, RowsOf(s.log, ParseableIn(s.log, batch), now)) { StorableWhenCopyable(db, s, batch, now); }
  }

  lemma SucceededBatch(db: Schema, s: State, batch: seq<nat>, now: int)
    requires Outcome(db, s, batch, now).1 && forall i :: i in batch ==> i in s.pel
    ensures var t := Outcome(db, s, batch, now).0;
      && (forall i :: i in batch ==> i in t.acked)
      && (forall i :: i in batch && Parseable(s.log, i) ==> HasRow(t.table, i))
  {
    hide Decode, Copyable;
    var ids := ParseableIn(s.log, batch);
    var rows := RowsOf(s.log, ids, now);
    forall i | i in ids ensures HasRow(s.table + rows, i) {
      var k :| 0 <= k < |ids| && ids[k] == i;
      assert (s.table + rows)[|s.table| + k].source == i;
    }
  }

  lemma FailedBatch(db: Schema, s: State, batch: seq<nat>, now: int)
    requires !Outcome(db, s, batch, now).1 && forall i :: i in batch ==> i in s.pel && i !in s.acked
    ensures var t := Outcome(db, s, batch, now).0;
      && t.table == s.table
      && (forall i :: i in batch && Parseable(s.log, i) ==> i in t.pel && t.pel[i] == s.pel[i] && i !in t.acked)
      && exists i :: i in batch && Parseable(s.log, i)
  {
    hide Decode, Copyable, RowsOf;
    var ids := ParseableIn(s.log, batch);
    assert ids[0] in ids;
  }

  lemma OtherFates(db: Schema, s: State, batch: seq<nat>, now: int)
    requires forall i :: i in batch ==> i in s.pel
    ensures var t := Outcome(db, s, batch, now).0;
      && (forall i :: i in batch && !Parseable(s.log, i) ==> i in t.acked)
      && (forall i :: i !in batch ==> (i in t.acked <==> i in s.acked) && (i in t.pel <==> i in s.pel))
  {
    hide Decode, Copyable, RowsOf, Parseable;
  }

  /** Batch atomicity with its exact condition. A batch of pending entries ends with all of them acknowledged
      exactly when it is storable; if it is not, the table is untouched and every parseable entry of the batch is
      still pending with the same owner. Unparseable entries are acknowledged in both cases, and no entry outside
      the batch changes its fate. */
  lemma BatchIsAllOrNothing(db: Schema, s: State, batch: seq<nat>, now: int)
    requires Inv(db, s) && Increasing(batch) && forall i :: i in batch ==> i in s.pel
    ensures var (t, ok) := Outcome(db, s, batch, now);
      && (ok <==> Storable(db, s, batch))
      && ((forall i :: i in batch ==> i in t.acked) <==> Storable(db, s, batch))
      && (ok ==> forall i :: i in batch && Parseable(s.log, i) ==> HasRow(t.table, i))
      && (!ok ==> t.table == s.table && forall i :: i in batch && Parseable(s.log, i) ==>
           i in t.pel && t.pel[i] == s.pel[i])
      && (forall i :: i in batch && !Parseable(s.log, i) ==> i in t.acked)
      && (forall i :: i !in batch ==> (i in t.acked <==> i in s.acked) && (i in t.pel <==> i in s.pel))
  {
    hide Outcome, Storable, Parseable, KeysUnique, TableSound, DropsWereTrimmed, AckedAreStored;
    InvBounds(db, s);
    SucceedsExactly(db, s, batch, now);
    OtherFates(db, s, batch, now);
    if Storable(db, s, batch) {
      SucceededBatch(db, s, batch, now);
    } else {
      FailedBatch(db, s, batch, now);
    }
  }

  // ----- A batch is a run of its worker's steps

  lemma {:induction false} Compose(db: Schema, s: State, first: seq<Action>, second: seq<Action>)
    requires Legal(db, s, first) && Legal(db, After(db, s, first), second)
    ensures Legal(db, s, first + second) && After(db, s, first + second) == After(db, After(db, s, first), second)
    decreases |second|
  {
    hide Enabled, Apply;
    if second == [] {
      assert first + second == first;
    } else {
      var n := |first + second|;
      Compose(db, s, first, second[..|second| - 1]);
      assert (first + second)[..n - 1] == first + second[..|second| - 1];
    }
  }

  lemma One(db: Schema, s: State, a: Action)
    requires Enabled(db, s, a)
    ensures Legal(db, s, [a]) && After(db, s, [a]) == Apply(db, s, a)
  {
    hide Enabled, Apply;
    assert [a][..0] == [];
  }

  /** Steps of a worker on the batch it holds. */
  predicate OwnSteps(run: seq<Action>) {
    forall a :: a in run ==> a.Parse? || a.Commit? || a.CopyFail? || a.Finish? || a.Ack?
  }

  lemma {:induction false} ParsingRun(
      db: Schema, s: State, w: nat, batch: seq<nat>, now: int, n: nat) returns (run: seq<Action>)
    requires w in s.workers && s.workers[w] == Parsing(batch, 0, now) && n <= |batch|
    ensures Legal(db, s, run) && OwnSteps(run)
    ensures After(db, s, run)
      == Acknowledge(s, UnparseableIn(s.log, batch[..n])).(workers := s.workers[w := Parsing(batch, n, now)])
  {
    hide Decode;
    if n == 0 {
      run := [];
      assert s.workers[w := Parsing(batch, 0, now)] == s.workers;
      assert UnparseableIn(s.log, batch[..0]) == {};
      assert Acknowledge(s, {}) == s;
    } else {
      var before := ParsingRun(db, s, w, batch, now, n - 1);
      One(db, After(db, s, before), Parse(w));
      Compose(db, s, before, [Parse(w)]);
      run := before + [Parse(w)];
      AcknowledgeOneMore(s, batch, n);
    }
  }

  lemma AcknowledgeOneMore(s: State, batch: seq<nat>, n: nat)
    requires 0 < n <= |batch|
    ensures var before := Acknowledge(s, UnparseableIn(s.log, batch[..n - 1]));
      Acknowledge(s, UnparseableIn(s.log, batch[..n]))
      == if Parseable(s.log, batch[n - 1]) then before else Acknowledge(before, {batch[n - 1]})
  {
    hide Decode, Parseable;
    var prefix, last := batch[..n - 1], batch[n - 1];
    assert batch[..n] == prefix + [last];
    var all := UnparseableIn(s.log, batch[..n]);
    assert all == UnparseableIn(s.log, prefix) + if Parseable(s.log, last) then {} else {last};
    var before := Acknowledge(s, UnparseableIn(s.log, prefix));
    var after := Acknowledge(s, all);
    if !Parseable(s.log, last) {
      assert after.pel == Acknowledge(before, {last}).pel;
      assert after.acked == Acknowledge(before, {last}).acked;
    }
  }

  /** Processing a batch is a legal run: the parse steps, then commit and acknowledge, or the failed copy. */
  lemma ProcessingIsRun(db: Schema, s: State, w: nat, batch: seq<nat>, now: int) returns (run: seq<Action>)
    requires w in s.workers && s.workers[w] == Parsing(batch, 0, now)
    ensures Legal(db, s, run) && OwnSteps(run)
    ensures After(db, s, run) == Leave(Outcome(db, s, batch, now).0, w)
  {
    hide Schema.Accepts, Decode, Copyable, Parseable, Legal, After;
    run := ParsingRun(db, s, w, batch, now, |batch|);
    assert batch[..|batch|] == batch;
    var parsed := After(db, s, run);
    var ids := ParseableIn(s.log, batch);
    var end := if ids == [] then Finish(w)
               else if Copyable(db, s.table, RowsOf(s.log, ids, now)) then Commit(w) else CopyFail(w);
    One(db, parsed, end);
    Compose(db, s, run, [end]);
    run := run + [end];
    if end.Commit? {
      One(db, After(db, s, run), Ack(w));
      Compose(db, s, run, [Ack(w)]);
      run := run + [Ack(w)];
    }
  }

  // ----- One pass of the consumer loop

  /** XAUTOCLAIM visits at most ten times COUNT pending entries. */
  const SCAN_LIMIT: nat := 10 * BATCH_SIZE

  function PendingBelow(s: State, i: nat): set<nat> { set j | j in s.pel && j < i }

  /** Pending entries that are no longer in the stream. */
  function Trimmed(s: State): set<nat> { PendingBelow(s, s.head) }

  /** Idle pending entries of the stream before a given one. */
  function EligibleBelow(s: State, idle: set<nat>, i: nat): set<nat> {
    set j | j in s.pel && j in idle && s.head <= j < i
  }

  /** XAUTOCLAIM from 0-0 takes this entry: it is idle, pending and in the stream, the trimmed entries and the eligible
      ones before it leave room in the COUNT, and the scan gets that far. */
  predicate AmongFirst(s: State, idle: set<nat>, i: nat) {
    && i in s.pel && i in idle && s.head <= i
    && |Trimmed(s)| + |EligibleBelow(s, idle, i)| < BATCH_SIZE && |PendingBelow(s, i)| < SCAN_LIMIT
  }

  /** The entries below hi, in stream order, that one XAUTOCLAIM returns. */
  function Claimable(s: State, idle: set<nat>, hi: nat): (batch: seq<nat>)
    ensures Increasing(batch)
    ensures forall i: nat :: i in batch <==> i < hi && AmongFirst(s, idle, i)
  {
    if hi == 0 then []
    else
      var batch := Claimable(s, idle, hi - 1);
      assert forall k :: 0 <= k < |batch| ==> batch[k] in batch;
      batch + (if AmongFirst(s, idle, hi - 1) then [hi - 1] else [])
  }

  /** Trimmed entries that XAUTOCLAIM meets and deletes from the pending list, idle or not; each uses up the COUNT. */
  function Gone(s: State): set<nat> {
    set i | i in s.pel && i < s.head && |PendingBelow(s, i)| < BATCH_SIZE
  }

  lemma {:induction false} DistinctCount(s: seq<nat>, all: set<nat>)
    requires Increasing(s) && forall i :: i in all <==> i in s
    ensures |all| == |s|
  {
    if s == [] {
      assert all == {};
    } else {
      var init, last := s[..|s| - 1], s[|s| - 1];
      assert s == init + [last];
      forall k | 0 <= k < |init| ensures init[k] != last { assert s[k] < s[|s| - 1]; }
      DistinctCount(init, all - {last});
    }
  }

  lemma {:induction false} SubsetCount(a: set<nat>, b: set<nat>)
    requires a <= b
    ensures |a| <= |b|
  {
    if a != {} {
      var x :| x in a;
      SubsetCount(a - {x}, b - {x});
    }
  }

  /** What XAUTOCLAIM returns never exceeds its COUNT. */
  lemma ClaimFits(s: State, idle: set<nat>, hi: nat)
    ensures |Claimable(s, idle, hi)| <= BATCH_SIZE
  {
    hide AmongFirst, EligibleBelow;
    var batch := Claimable(s, idle, hi);
    hide Claimable;
    if batch != [] {
      var before, last := batch[..|batch| - 1], batch[|batch| - 1];
      assert last in batch;
      var all := set i | i in before;
      DistinctCount(before, all);
      forall i | i in all ensures i in EligibleBelow(s, idle, last) {
        var k :| 0 <= k < |before| && before[k] == i;
        assert batch[k] in batch && batch[k] < last;
        EligibleFirst(s, idle, i, last);
      }
      SubsetCount(all, EligibleBelow(s, idle, last));
      FewEligible(s, idle, last);
    }
  }

  lemma EligibleFirst(s: State, idle: set<nat>, i: nat, last: nat)
    requires AmongFirst(s, idle, i) && i < last
    ensures i in EligibleBelow(s, idle, last)
  {
  }

  lemma FewEligible(s: State, idle: set<nat>, i: nat)
    requires AmongFirst(s, idle, i)
    ensures |EligibleBelow(s, idle, i)| < BATCH_SIZE
  {
  }

  /** The broker after an XAUTOCLAIM. */
  function Claimed(s: State, w: nat, idle: set<nat>): State {
    s.(pel := (s.pel - Gone(s)) + Owned(Claimable(s, idle, s.next), w), dropped := s.dropped + Gone(s))
  }

  /** The entries an XREADGROUP delivers. */
  function Fresh(s: State): seq<nat> {
    if s.next < |s.log| then Range(s.next, Min(s.next + BATCH_SIZE, |s.log|)) else []
  }

  /** The broker after an XREADGROUP. */
  function Delivered(s: State, w: nat): State {
    s.(pel := s.pel + Owned(Fresh(s), w), next := s.next + |Fresh(s)|)
  }

  function ClaimAction(s: State, w: nat, idle: set<nat>, now: int): Action {
    Claim(w, Claimable(s, idle, s.next), Gone(s), now)
  }

  lemma ClaimActionEnabled(db: Schema, s: State, w: nat, idle: set<nat>, now: int)
    requires w !in s.workers
    ensures Enabled(db, s, ClaimAction(s, w, idle, now))
  {
    hide Claimable, PendingBelow, Trimmed, EligibleBelow;
    ClaimFits(s, idle, s.next);
  }

  lemma ClaimActionApplies(db: Schema, s: State, w: nat, idle: set<nat>, now: int)
    requires s.workers == map[]
    ensures Enabled(db, s, ClaimAction(s, w, idle, now))
    ensures var t := Apply(db, s, ClaimAction(s, w, idle, now));
      && t.(workers := map[]) == Claimed(s, w, idle)
      && (Claimable(s, idle, s.next) != [] ==> t.workers == map[w := Parsing(Claimable(s, idle, s.next), 0, now)])
      && (Claimable(s, idle, s.next) == [] ==> t.workers == map[])
  {
    hide Claimable, Gone;
    ClaimActionEnabled(db, s, w, idle, now);
  }

  lemma ReadApplies(db: Schema, s: State, w: nat, now: int)
    requires s.workers == map[] && s.next < |s.log|
    ensures Enabled(db, s, Read(w, now))
    ensures var t := Apply(db, s, Read(w, now));
      && t.(workers := map[]) == Delivered(s, w)
      && t.workers == map[w := Parsing(Fresh(s), 0, now)]
  {
  }

  /** Reclaim and process; the flag is false when the batch raised. */
  function AfterClaim(db: Schema, s: State, w: nat, idle: set<nat>, now: int): (State, bool) {
    var batch := Claimable(s, idle, s.next);
    if batch == [] then (Claimed(s, w, idle), true) else Outcome(db, Claimed(s, w, idle), batch, now)
  }

  function AfterRead(db: Schema, s: State, w: nat, now: int): State {
    if Fresh(s) == [] then s else Outcome(db, Delivered(s, w), Fresh(s), now).0
  }

  /** An exception while reclaiming skips the read of that pass. */
  function AfterPass(db: Schema, s: State, w: nat, due: bool, idle: set<nat>, now: int): State {
    var (s1, ok) := if due then AfterClaim(db, s, w, idle, now) else (s, true);
    if ok then AfterRead(db, s1, w, now) else s1
  }

  lemma OutcomeIgnoresWorkers(db: Schema, s: State, workers: map<nat, Phase>, batch: seq<nat>, now: int)
    ensures Outcome(db, s.(workers := workers), batch, now)
      == (Outcome(db, s, batch, now).0.(workers := workers), Outcome(db, s, batch, now).1)
  {
    hide Copyable, Decode, Parseable;
  }

  lemma ReadIsRun(db: Schema, s: State, w: nat, now: int) returns (run: seq<Action>)
    requires s.workers == map[]
    ensures Legal(db, s, run) && After(db, s, run) == AfterRead(db, s, w, now)
  {
    hide Outcome, Legal, After, Enabled, Apply;
    run := Nothing(db, s);
    if s.next < |s.log| {
      ReadApplies(db, s, w, now);
      One(db, s, Read(w, now));
      var delivered := Apply(db, s, Read(w, now));
      var rest := ProcessingIsRun(db, delivered, w, Fresh(s), now);
      Compose(db, s, [Read(w, now)], rest);
      run := [Read(w, now)] + rest;
      OutcomeIgnoresWorkers(db, delivered, map[], Fresh(s), now);
      LoneWorkerLeaves(db, delivered, w, Fresh(s), now);
    }
  }

  lemma Nothing(db: Schema, s: State) returns (run: seq<Action>)
    ensures run == [] && Legal(db, s, run) && After(db, s, run) == s
  {
    run := [];
  }

  lemma LoneWorkerLeaves(db: Schema, s: State, w: nat, batch: seq<nat>, now: int)
    requires s.workers.Keys == {w}
    ensures Leave(Outcome(db, s, batch, now).0, w) == Outcome(db, s, batch, now).0.(workers := map[])
  {
    hide Copyable, Decode;
    assert s.workers - {w} == map[];
  }

  lemma ClaimIsRun(db: Schema, s: State, w: nat, idle: set<nat>, now: int) returns (run: seq<Action>)
    requires s.workers == map[]
    ensures Legal(db, s, run) && After(db, s, run) == AfterClaim(db, s, w, idle, now).0
  {
    hide Outcome, Legal, After, Enabled, Apply;
    var claim := ClaimAction(s, w, idle, now);
    ClaimActionApplies(db, s, w, idle, now);
    One(db, s, claim);
    var claimed := Apply(db, s, claim);
    var batch := Claimable(s, idle, s.next);
    run := [claim];
    if batch != [] {
      var rest := ProcessingIsRun(db, claimed, w, batch, now);
      Compose(db, s, [claim], rest);
      run := [claim] + rest;
      OutcomeIgnoresWorkers(db, claimed, map[], batch, now);
      LoneWorkerLeaves(db, claimed, w, batch, now);
    }
  }

  /** A whole pass of the loop is a legal run of the worker, so every invariant of runs holds between passes. */
  lemma PassIsRun(db: Schema, s: State, w: nat, due: bool, idle: set<nat>, now: int) returns (run: seq<Action>)
    requires s.workers == map[]
    ensures Legal(db, s, run) && After(db, s, run) == AfterPass(db, s, w, due, idle, now)
  {
    hide Outcome, AfterClaim, AfterRead, Legal, After;
    run := Nothing(db, s);
    var s1, ok := s, true;
    if due {
      run := ClaimIsRun(db, s, w, idle, now);
      s1, ok := AfterClaim(db, s, w, idle, now).0, AfterClaim(db, s, w, idle, now).1;
      ClaimLeavesNoWorker(db, s, w, idle, now);
    }
    if ok {
      var rest := ReadIsRun(db, s1, w, now);
      Compose(db, s, run, rest);
      run := run + rest;
    }
  }

  lemma ClaimLeavesNoWorker(db: Schema, s: State, w: nat, idle: set<nat>, now: int)
    requires s.workers == map[]
    ensures AfterClaim(db, s, w, idle, now).0.workers == map[]
  {
    hide Copyable, Decode;
  }

  lemma LoneWorkerForgotten(db: Schema, s: State)
    requires Inv(db, s)
    ensures Inv(db, s.(workers := map[]))
  {
  }
}
