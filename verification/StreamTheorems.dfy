/** What every run of the persister guarantees, and what it cannot. */
module StreamTheorems {
  import opened Text
  import opened Wire
  import opened Stream

  // ----- No loss, no duplication

  /** The number of rows made from an entry. */
  function RowCount(rows: seq<Row>, entry: nat): nat {
    if rows == [] then 0
    else RowCount(rows[..|rows| - 1], entry) + (if rows[|rows| - 1].source == entry then 1 else 0)
  }

  lemma SourcesUnique(db: Schema, s: State, j: nat, k: nat)
    requires TableSound(db, s) && j < k < |s.table|
    ensures s.table[j].source != s.table[k].source
  {
    hide Schema.Accepts, Decode;
    assert RowSound(db, s, s.table[j]) && RowSound(db, s, s.table[k]);
  }

  lemma {:induction false} RowCountIsOne(db: Schema, s: State, n: nat, entry: nat)
    requires TableSound(db, s) && n <= |s.table|
    ensures RowCount(s.table[..n], entry) == if exists k :: 0 <= k < n && s.table[k].source == entry then 1 else 0
  {
    hide TableSound;
    if n > 0 {
      RowCountIsOne(db, s, n - 1, entry);
      assert s.table[..n][..n - 1] == s.table[..n - 1];
      forall k | 0 <= k < n - 1 ensures s.table[k].source != s.table[n - 1].source {
        SourcesUnique(db, s, k, n - 1);
      }
    }
  }

  /** The primary key is the pair of instant and identifier: rows collide exactly if they agree in both. */
  lemma CollideExactly(a: Row, b: Row)
    ensures KeysUnique([a, b]) <==> a.record.recordedAt != b.record.recordedAt || a.record.id != b.record.id
  {
    var rows := [a, b];
    assert rows[0] == a && rows[1] == b;
    assert KeysUnique(rows) <==> Key(rows[0].record) != Key(rows[1].record);
  }

  /** Exactly one of the four fates of an entry. */
  predicate OneFate(s: State, i: nat) {
    var undelivered, pending, acked, dropped := i >= s.next, i in s.pel, i in s.acked, i in s.dropped;
    && (undelivered || pending || acked || dropped)
    && !(undelivered && (pending || acked || dropped))
    && !(pending && (acked || dropped)) && !(acked && dropped)
  }

  /** In every run from the empty stream, with any number of workers, crashes, reclaims and trimming:
      each entry is undelivered, pending, acked or dropped, and only one of these; an acked entry is either
      unparseable or has its one row; no entry ever has two rows; an entry is dropped only once half a million
      newer ones have been added. */
  lemma NoLossNoDuplication(db: Schema, run: seq<Action>, i: nat)
    requires Legal(db, INIT, run)
    requires i < |After(db, INIT, run).log|
    ensures var s := After(db, INIT, run);
      && OneFate(s, i)
      && RowCount(s.table, i) <= 1
      && (i in s.acked ==> RowCount(s.table, i) == 1 || Decode(s.log[i]) == None)
      && (Decode(s.log[i]) == None ==> RowCount(s.table, i) == 0)
      && (i in s.dropped ==> i + 500_000 < |s.log|)
  {
    hide Schema.Accepts, Decode;
    RunKeepsInv(db, INIT, run);
    var s := After(db, INIT, run);
    RowCountIsOne(db, s, |s.table|, i);
    assert s.table[..|s.table|] == s.table;
    if HasRow(s.table, i) {
      var k :| 0 <= k < |s.table| && s.table[k].source == i;
      assert RowSound(db, s, s.table[k]);
    }
  }

  lemma {:induction false} IntervalSize(n: nat, all: set<nat>)
    requires forall i :: i in all <==> 0 <= i < n
    ensures |all| == n
  {
    if n == 0 {
      assert all == {};
    } else {
      IntervalSize(n - 1, all - {n - 1});
    }
  }

  /** Entries are conserved: those added are those still undelivered plus those pending, acked and dropped. */
  lemma EntriesAreConserved(db: Schema, run: seq<Action>)
    requires Legal(db, INIT, run)
    ensures var s := After(db, INIT, run);
      s.next <= |s.log| && |s.log| == (|s.log| - s.next) + |s.pel| + |s.acked| + |s.dropped|
  {
    hide TableSound, AckedAreStored;
    RunKeepsInv(db, INIT, run);
    var s := After(db, INIT, run);
    assert s.pel.Keys !! s.acked && (s.pel.Keys + s.acked) !! s.dropped;
    IntervalSize(s.next, s.pel.Keys + s.acked + s.dropped);
    assert |s.pel.Keys| == |s.pel|;
  }

  // ----- What only grows

  predicate Grows(s: State, t: State) {
    s.log <= t.log && s.table <= t.table && s.next <= t.next && s.acked <= t.acked
  }

  lemma StepGrows(db: Schema, s: State, a: Action)
    requires Enabled(db, s, a)
    requires s.next <= |s.log|
    ensures Grows(s, Apply(db, s, a))
  {
  }

  lemma {:induction false} RunGrows(db: Schema, s: State, run: seq<Action>)
    requires Inv(db, s) && Legal(db, s, run)
    ensures Grows(s, After(db, s, run))
  {
    hide Inv;
    if run != [] {
      var before := run[..|run| - 1];
      RunGrows(db, s, before);
      RunKeepsInv(db, s, before);
      assert After(db, s, before).next <= |After(db, s, before).log| by { InvBounds(db, After(db, s, before)); }
      StepGrows(db, After(db, s, before), run[|run| - 1]);
    }
  }

  lemma InvBounds(db: Schema, s: State)
    requires Inv(db, s)
    ensures s.head <= s.next <= |s.log| && KeysUnique(s.table)
  {
  }

  // ----- The limit of recovery

  /** The entry's row is stored but nobody is about to acknowledge it. */
  ghost predicate Stranded(s: State, i: nat) {
    && Parseable(s.log, i) && HasRow(s.table, i) && i !in s.acked
    && forall w :: w in s.workers && s.workers[w].Acking? ==> i !in s.workers[w].ids
  }

  lemma StoredEntryBlocksCopy(db: Schema, s: State, ids: seq<nat>, now: int, i: nat)
    requires TableSound(db, s) && HasRow(s.table, i) && i in ids
    requires forall k :: 0 <= k < |ids| ==> Parseable(s.log, ids[k])
    ensures !Copyable(db, s.table, RowsOf(s.log, ids, now))
  {
    hide Schema.Accepts, Decode;
    var rows := RowsOf(s.log, ids, now);
    var j :| 0 <= j < |s.table| && s.table[j].source == i;
    var k :| 0 <= k < |ids| && ids[k] == i;
    assert RowSound(db, s, s.table[j]);
    assert (s.table + rows)[j] == s.table[j] && (s.table + rows)[|s.table| + k] == rows[k];
    assert Key(s.table[j].record) == Key(rows[k].record);
  }

  lemma StrandedStep(db: Schema, s: State, a: Action, i: nat)
    requires Inv(db, s) && Enabled(db, s, a) && Stranded(s, i)
    ensures Stranded(Apply(db, s, a), i)
  {
    hide Schema.Accepts, Decode;
    match a
    case Commit(w) =>
      var Parsing(batch, _, now) := s.workers[w];
      var ids := ParseableIn(s.log, batch);
      if i in ids { StoredEntryBlocksCopy(db, s, ids, now, i); }
      AppendKeepsRows(s.table, Records(s, w), i);
    case _ =>
  }

  /** Once stranded, an entry is never acknowledged again, whatever the workers do from then on. */
  lemma {:induction false} StrandedForever(db: Schema, s: State, run: seq<Action>, i: nat)
    requires Inv(db, s) && Legal(db, s, run) && Stranded(s, i)
    ensures Stranded(After(db, s, run), i)
    ensures i !in After(db, s, run).acked
  {
    hide Inv, Stranded;
    if run != [] {
      var before := run[..|run| - 1];
      StrandedForever(db, s, before, i);
      RunKeepsInv(db, s, before);
      StrandedStep(db, After(db, s, before), run[|run| - 1], i);
    }
    StrandedIsNotAcked(After(db, s, run), i);
  }

  lemma StrandedIsNotAcked(s: State, i: nat)
    requires Stranded(s, i)
    ensures i !in s.acked
  {
  }

  /** A worker that dies between its commit and its XACK strands every entry of the batch that was not acked before,
      in every continuation: each keeps its one row and is never acknowledged. */
  lemma CrashAfterCommitStrands(db: Schema, s: State, w: nat, later: seq<Action>, i: nat)
    requires Inv(db, s) && Enabled(db, s, Commit(w))
    requires i in ParseableIn(s.log, s.workers[w].batch)
    requires Legal(db, Leave(Apply(db, s, Commit(w)), w), later)
    ensures var t := After(db, Leave(Apply(db, s, Commit(w)), w), later);
      i !in t.acked && HasRow(t.table, i)
  {
    hide Schema.Accepts, Decode, Copyable;
    var committed := Apply(db, s, Commit(w));
    var crashed := Leave(committed, w);
    StepKeepsInv(db, s, Commit(w));
    LeaveKeepsInv(db, committed, w);
    FreshlyCommittedIsStranded(db, s, w, i);
    StrandedForever(db, crashed, later, i);
  }

  lemma CommitThenCrash(db: Schema, s: State, w: nat)
    requires Enabled(db, s, Commit(w))
    ensures Leave(Apply(db, s, Commit(w)), w) == s.(table := s.table + Records(s, w), workers := s.workers - {w})
  {
    hide Copyable;
  }

  lemma FreshlyCommittedIsStranded(db: Schema, s: State, w: nat, i: nat)
    requires Inv(db, s) && Enabled(db, s, Commit(w))
    requires i in ParseableIn(s.log, s.workers[w].batch)
    ensures Stranded(Leave(Apply(db, s, Commit(w)), w), i)
  {
    hide Schema.Accepts, Decode, Copyable, Apply;
    CommitThenCrash(db, s, w);
    var Parsing(batch, _, now) := s.workers[w];
    var ids := ParseableIn(s.log, batch);
    if HasRow(s.table, i) { StoredEntryBlocksCopy(db, s, ids, now, i); }
    NewRowFor(s.log, s.table, ids, now, i);
  }

  lemma NewRowFor(log: seq<Fields>, table: seq<Row>, ids: seq<nat>, now: int, i: nat)
    requires i in ids && forall k :: 0 <= k < |ids| ==> Parseable(log, ids[k])
    ensures HasRow(table + RowsOf(log, ids, now), i)
  {
    hide Decode;
    var k :| 0 <= k < |ids| && ids[k] == i;
    assert (table + RowsOf(log, ids, now))[|table| + k].source == i;
  }

  // ----- From the endpoint to the table

  predicate StoredAs(rows: seq<Row>, entry: nat, record: Record) {
    exists k :: 0 <= k < |rows| && rows[k].source == entry && rows[k].record == record
  }

  /** A reading accepted by the ingest endpoint and acknowledged by a persister is stored as exactly that reading. */
  lemma AcknowledgedReadingIsStored(db: Schema, run: seq<Action>, i: nat, r: Reading, id: nat, device: nat, site: nat)
    requires Legal(db, INIT, run) && r.Valid() && IsUuid(id) && IsUuid(device)
    requires i in After(db, INIT, run).acked
    requires i < |After(db, INIT, run).log| && After(db, INIT, run).log[i] == Encode(r, id, device, site)
    ensures StoredAs(After(db, INIT, run).table, i, RecordOf(r, id, device))
  {
    hide Schema.Accepts, Decode, Encode;
    RunKeepsInv(db, INIT, run);
    DecodeInvertsEncode(r, id, device, site);
    var s := After(db, INIT, run);
    assert Parseable(s.log, i);
    var k :| 0 <= k < |s.table| && s.table[k].source == i;
    assert RowSound(db, s, s.table[k]);
  }
}
