/** Why a single worker that is never interrupted empties the stream. */
module Draining {
  import opened Text
  import opened Ranges
  import opened Wire
  import opened Stream
  import opened StreamTheorems
  import opened Persister

  /** The rows stored for a list of entries, in their order, each holding what its entry decodes to. */
  predicate Holds(rows: seq<Row>, log: seq<Fields>, ids: seq<nat>) {
    && |rows| == |ids|
    && forall k :: 0 <= k < |ids| ==>
         Parseable(log, ids[k]) && rows[k].source == ids[k] && Decode(log[ids[k]]) == Some(rows[k].record)
  }

  /** Nothing is pending, nobody holds a batch, and everything still to be read is unparseable or storable. */
  ghost predicate Quiet(db: Schema, s: State) {
    && Inv(db, s) && s.workers == map[] && s.pel == map[]
    && Storable(db, s, Range(s.next, |s.log|))
  }

  /** From s to t the entries in between were acknowledged and their records appended in order. */
  predicate Drained(s: State, t: State) {
    && t.log == s.log && t.dropped == s.dropped && s.next <= t.next <= |s.log|
    && t.acked == s.acked + Interval(s.next, t.next)
    && |s.table| <= |t.table| && t.table[..|s.table|] == s.table
    && Holds(t.table[|s.table|..], s.log, ParseableIn(s.log, Range(s.next, t.next)))
  }

  lemma QuietMeansEmpty(db: Schema, s: State)
    requires Quiet(db, s)
    ensures s.pel == map[] && s.head <= s.next <= |s.log|
  {
  }

  lemma DrainedNothing(db: Schema, s: State)
    requires Quiet(db, s)
    ensures Drained(s, s)
  {
    hide Storable;
    assert s.acked + Interval(s.next, s.next) == s.acked;
    assert s.table[..|s.table|] == s.table;
  }

  lemma ParseableInAppend(log: seq<Fields>, batch: seq<nat>, i: nat)
    ensures ParseableIn(log, batch + [i]) == ParseableIn(log, batch) + if Parseable(log, i) then [i] else []
  {
    hide Parseable;
    assert (batch + [i])[..|batch|] == batch;
  }

  lemma NothingParseable(log: seq<Fields>)
    ensures ParseableIn(log, []) == []
  {
  }

  lemma Regroup(x: seq<nat>, y: seq<nat>, z: seq<nat>)
    ensures x + (y + z) == x + y + z
  {
  }

  lemma {:induction false} ParseableInConcat(log: seq<Fields>, a: seq<nat>, b: seq<nat>)
    ensures ParseableIn(log, a + b) == ParseableIn(log, a) + ParseableIn(log, b)
    decreases |b|
  {
    hide Parseable, ParseableIn;
    if b == [] {
      assert a + b == a && ParseableIn(log, a) + [] == ParseableIn(log, a);
      NothingParseable(log);
    } else {
      var init, last := b[..|b| - 1], b[|b| - 1];
      ParseableInConcat(log, a, init);
      ParseableInAppend(log, init, last);
      ParseableInAppend(log, a + init, last);
      assert b == init + [last];
      Regroup(a, init, [last]);
      Regroup(ParseableIn(log, a), ParseableIn(log, init), if Parseable(log, last) then [last] else []);
    }
  }

  lemma RangeSplit(lo: nat, mid: nat, hi: nat)
    requires lo <= mid <= hi
    ensures Range(lo, hi) == Range(lo, mid) + Range(mid, hi)
  {
  }

  lemma Tails<T>(s: seq<T>, t: seq<T>, u: seq<T>)
    requires |s| <= |t| <= |u| && t[..|s|] == s && u[..|t|] == t
    ensures u[..|s|] == s && u[|s|..] == t[|s|..] + u[|t|..]
  {
    assert forall k :: 0 <= k < |t| ==> u[k] == u[..|t|][k];
  }

  lemma HoldsConcat(a: seq<Row>, b: seq<Row>, log: seq<Fields>, x: seq<nat>, y: seq<nat>)
    requires Holds(a, log, x) && Holds(b, log, y)
    ensures Holds(a + b, log, x + y)
  {
    hide Decode, Parseable;
  }

  lemma DrainedTwice(s: State, t: State, u: State)
    requires Drained(s, t) && Drained(t, u)
    ensures Drained(s, u)
  {
    hide Holds, ParseableIn;
    RangeSplit(s.next, t.next, u.next);
    ParseableInConcat(s.log, Range(s.next, t.next), Range(t.next, u.next));
    Tails(s.table, t.table, u.table);
    HoldsConcat(t.table[|s.table|..], u.table[|t.table|..], s.log,
                ParseableIn(s.log, Range(s.next, t.next)), ParseableIn(s.log, Range(t.next, u.next)));
  }

  lemma {:induction false} NoneClaimable(s: State, idle: set<nat>, hi: nat)
    requires s.pel == map[]
    ensures Claimable(s, idle, hi) == []
  {
    if hi > 0 { NoneClaimable(s, idle, hi - 1); }
  }

  lemma NothingToClaim(db: Schema, s: State, w: nat, idle: set<nat>, now: int)
    requires s.pel == map[]
    ensures AfterClaim(db, s, w, idle, now) == (s, true)
  {
    NoneClaimable(s, idle, s.next);
    assert Gone(s) == {};
    assert Claimed(s, w, idle).pel == s.pel && Claimed(s, w, idle).dropped == s.dropped;
  }

  /** The whole effect of a batch that goes through. */
  lemma StoredBatch(db: Schema, s: State, batch: seq<nat>, now: int)
    requires Copyable(db, s.table, RowsOf(s.log, ParseableIn(s.log, batch), now))
    requires s.pel.Keys == set i | i in batch
    ensures var t := Outcome(db, s, batch, now).0;
      && t.log == s.log && t.dropped == s.dropped && t.next == s.next && t.pel == map[]
      && t.acked == s.acked + s.pel.Keys
      && t.table == s.table + RowsOf(s.log, ParseableIn(s.log, batch), now)
  {
    hide Copyable, Decode;
    var t := Outcome(db, s, batch, now).0;
    forall i | i in batch ensures i in t.acked && i !in t.pel {
      assert i in UnparseableIn(s.log, batch) || i in ParseableIn(s.log, batch);
    }
    assert t.acked == s.acked + s.pel.Keys;
  }

  lemma FreshEntries(s: State, w: nat)
    requires s.next < |s.log| && s.pel == map[]
    ensures var hi := Min(s.next + BATCH_SIZE, |s.log|);
      && Fresh(s) == Range(s.next, hi) && Fresh(s) != [] && Delivered(s, w).next == hi
      && Delivered(s, w).pel.Keys == Interval(s.next, hi) && Interval(s.next, hi) == set i | i in Fresh(s)
  {
  }

  lemma ReadStores(db: Schema, s: State, w: nat, now: int)
    requires s.next < |s.log| && s.pel == map[] && KeysUnique(s.table) && Storable(db, s, Range(s.next, |s.log|))
    ensures var t, hi := AfterRead(db, s, w, now), Min(s.next + BATCH_SIZE, |s.log|);
      && t.log == s.log && t.dropped == s.dropped && t.next == hi && t.pel == map[]
      && t.acked == s.acked + Interval(s.next, hi)
      && t.table == s.table + RowsOf(s.log, ParseableIn(s.log, Range(s.next, hi)), now)
  {
    hide Decode, Schema.Accepts, Copyable, Storable, Outcome, Parseable, KeysUnique, RowsOf, ParseableIn, Range,
        Interval;
    var batch, delivered := Fresh(s), Delivered(s, w);
    FreshEntries(s, w);
    SubBatchStorable(db, s, delivered, batch);
    CopyableWhenStorable(db, delivered, batch, now);
    StoredBatch(db, delivered, batch, now);
  }

  /** Reading a storable batch into an empty pending list acknowledges and stores all of it. */
  lemma ReadDrains(db: Schema, s: State, w: nat, now: int)
    requires s.next < |s.log| && s.pel == map[] && KeysUnique(s.table) && Storable(db, s, Range(s.next, |s.log|))
    ensures var t := AfterRead(db, s, w, now);
      && t.next == Min(s.next + BATCH_SIZE, |s.log|) && t.pel == map[]
      && Drained(s, t)
  {
    hide KeysUnique, Storable, AfterRead, RowsOf, ParseableIn, Holds, Interval, Range;
    ReadStores(db, s, w, now);
    StoredRowsHold(s.table, s.log, Range(s.next, Min(s.next + BATCH_SIZE, |s.log|)), now);
  }

  lemma StoredRowsHold(table: seq<Row>, log: seq<Fields>, batch: seq<nat>, now: int)
    ensures var rows := RowsOf(log, ParseableIn(log, batch), now);
      && Holds((table + rows)[|table|..], log, ParseableIn(log, batch))
      && (table + rows)[..|table|] == table
  {
    hide Decode;
    var rows := RowsOf(log, ParseableIn(log, batch), now);
    assert (table + rows)[|table|..] == rows && (table + rows)[..|table|] == table;
  }

  lemma SubBatchStorable(db: Schema, s: State, t: State, batch: seq<nat>)
    requires s.next <= |s.log| && Storable(db, s, Range(s.next, |s.log|)) && t.log == s.log && t.table == s.table
    requires forall i :: i in batch ==> s.next <= i < |s.log|
    ensures Storable(db, t, batch)
  {
    hide Decode, Schema.Accepts;
  }

  /** What remains is still storable against the grown table. */
  lemma RestStorable(db: Schema, s: State, t: State)
    requires s.next <= |s.log| && Storable(db, s, Range(s.next, |s.log|)) && Drained(s, t)
    ensures Storable(db, t, Range(t.next, |t.log|))
  {
    hide Decode, Schema.Accepts;
    var ids := ParseableIn(s.log, Range(s.next, t.next));
    forall i | i in Range(t.next, |t.log|) && Parseable(t.log, i)
      ensures db.Accepts(Decode(t.log[i]).value) && !HasKey(t.table, Key(Decode(t.log[i]).value))
    {
      assert i in Range(s.next, |s.log|);
      forall k | 0 <= k < |t.table| ensures Key(t.table[k].record) != Key(Decode(t.log[i]).value) {
        if k < |s.table| {
          assert t.table[k] == t.table[..|s.table|][k];
        } else {
          var row := t.table[|s.table|..][k - |s.table|];
          assert row == t.table[k];
          assert row.source == ids[k - |s.table|] && ids[k - |s.table|] in ids;
          assert row.source in Range(s.next, |s.log|);
        }
      }
    }
    forall i, j | i in Range(t.next, |t.log|) && j in Range(t.next, |t.log|) && i != j && Parseable(t.log, i)
        && Parseable(t.log, j)
      ensures Key(Decode(t.log[i]).value) != Key(Decode(t.log[j]).value)
    {
      assert i in Range(s.next, |s.log|) && j in Range(s.next, |s.log|);
    }
  }

  /** One pass of the loop drains one batch and leaves the worker ready for the next. */
  lemma PassDrains(db: Schema, s: State, w: nat, t: State, idle: set<nat>, now: int)
    requires Quiet(db, s) && s.next < |s.log|
    requires exists due :: t == AfterPass(db, s, w, due, idle, now)
    ensures Quiet(db, t) && Drained(s, t) && t.next == Min(s.next + BATCH_SIZE, |s.log|)
  {
    hide Storable, Inv, AfterClaim, AfterRead, Drained, KeysUnique;
    var due :| t == AfterPass(db, s, w, due, idle, now);
    NothingToClaim(db, s, w, idle, now);
    InvBounds(db, s);
    ReadDrains(db, s, w, now);
    var run := PassIsRun(db, s, w, due, idle, now);
    RunKeepsInv(db, s, run);
    RestStorable(db, s, t);
    ReadLeavesNoWorker(db, s, w, now);
  }

  lemma ReadLeavesNoWorker(db: Schema, s: State, w: nat, now: int)
    ensures AfterRead(db, s, w, now).workers == s.workers
  {
    hide Copyable, Decode, Parseable, RowsOf;
  }

  /** The condition is exact: if any run at all, by any workers, acknowledges everything that was still unread,
      then the unread entries were unparseable or storable to begin with. */
  lemma DrainingNeedsStorable(db: Schema, s: State, run: seq<Action>)
    requires Inv(db, s) && Legal(db, s, run)
    requires forall i :: s.next <= i < |s.log| ==> i in After(db, s, run).acked
    ensures Storable(db, s, Range(s.next, |s.log|))
  {
    hide Decode, Schema.Accepts, Legal, After, Inv, TableSound, KeysUnique;
    RunKeepsInv(db, s, run);
    RunGrows(db, s, run);
    InvBounds(db, s);
    var t := After(db, s, run);
    forall i | i in Range(s.next, |s.log|) && Parseable(s.log, i)
      ensures db.Accepts(Decode(s.log[i]).value) && !HasKey(s.table, Key(Decode(s.log[i]).value))
    {
      var k := RowOfAcked(db, t, i);
      assert t.log[i] == s.log[i];
      forall j | 0 <= j < |s.table| ensures Key(s.table[j].record) != Key(t.table[k].record) {
        assert s.table[j] == t.table[j];
        OldRowsAreOld(db, s, j);
        RowsDiffer(db, t, j, k);
      }
    }
    forall i, j | i in Range(s.next, |s.log|) && j in Range(s.next, |s.log|) && i != j && Parseable(s.log, i)
        && Parseable(s.log, j)
      ensures Key(Decode(s.log[i]).value) != Key(Decode(s.log[j]).value)
    {
      assert t.log[i] == s.log[i] && t.log[j] == s.log[j];
      var k := RowOfAcked(db, t, i);
      var l := RowOfAcked(db, t, j);
      RowsDiffer(db, t, k, l);
    }
  }

  lemma RowOfAcked(db: Schema, t: State, i: nat) returns (k: nat)
    requires Inv(db, t) && i in t.acked && Parseable(t.log, i)
    ensures k < |t.table| && t.table[k].source == i && Decode(t.log[i]) == Some(t.table[k].record)
      && db.Accepts(t.table[k].record)
  {
    hide Decode, Schema.Accepts;
    k :| 0 <= k < |t.table| && t.table[k].source == i;
    assert RowSound(db, t, t.table[k]);
  }

  lemma OldRowsAreOld(db: Schema, s: State, j: nat)
    requires Inv(db, s) && j < |s.table|
    ensures s.table[j].source < s.next
  {
    hide Decode, Schema.Accepts;
    assert RowSound(db, s, s.table[j]);
  }

  lemma RowsDiffer(db: Schema, t: State, j: nat, k: nat)
    requires Inv(db, t) && j < |t.table| && k < |t.table| && t.table[j].source != t.table[k].source
    ensures Key(t.table[j].record) != Key(t.table[k].record)
  {
    hide Decode, Schema.Accepts;
  }
}
