/** How one worker works off what others left behind: pending entries together with everything unread. */
module Backlog {
  import opened Ranges
  import opened Wire
  import opened Stream
  import opened StreamTheorems
  import opened Persister
  import opened Draining
  import opened Recovery
  import opened Reclaim

  /** Everything a persister still has to deal with: pending entries of the stream, and unread ones. */
  function Outstanding(s: State): set<nat>
    requires s.next <= |s.log|
  {
    (set i | i in s.pel && s.head <= i) + Interval(s.next, |s.log|)
  }

  /** Nobody holds a batch, and what is outstanding is storable together. */
  ghost predicate Clear(db: Schema, s: State) {
    Inv(db, s) && s.workers == map[] && s.next <= |s.log| && StorableTogether(db, s, Outstanding(s))
  }

  // ----- One batch

  function Members(batch: seq<nat>): (ids: set<nat>)
    ensures forall i :: i in ids <==> i in batch
  {
    set i | i in batch
  }

  /** The keys of a stored batch take nothing away from the rest. */
  lemma RestIsStorable(db: Schema, s: State, ids: set<nat>, batch: seq<nat>, now: int)
    requires StorableTogether(db, s, ids) && forall i :: i in batch ==> i in ids
    ensures StorableTogether(
      db, s.(table := s.table + RowsOf(s.log, ParseableIn(s.log, batch), now)), ids - Members(batch))
  {
    hide Decode, Schema.Accepts, Key;
    var stored := ParseableIn(s.log, batch);
    var rows := RowsOf(s.log, stored, now);
    forall i | i in ids - Members(batch) && Parseable(s.log, i)
      ensures !HasKey(s.table + rows, Key(Decode(s.log[i]).value))
    {
      forall k | 0 <= k < |s.table + rows| ensures Key((s.table + rows)[k].record) != Key(Decode(s.log[i]).value) {
        if k < |s.table| {
          assert (s.table + rows)[k] == s.table[k];
        } else {
          assert stored[k - |s.table|] in stored;
        }
      }
    }
  }

  lemma OutcomeStores(db: Schema, s: State, batch: seq<nat>, now: int)
    requires Outcome(db, s, batch, now).1 && forall i :: i in batch ==> i in s.pel
    ensures var t := Outcome(db, s, batch, now).0;
      && t == s.(pel := t.pel, acked := t.acked, table := s.table + RowsOf(s.log, ParseableIn(s.log, batch), now))
      && t.pel == s.pel - Members(batch)
  {
    hide Decode, Copyable, RowsOf;
    var ids := ParseableIn(s.log, batch);
    if ids == [] { NoRows(s.log, s.table, now); }
    forall i | i in batch ensures i in UnparseableIn(s.log, batch) || i in ids {}
  }

  lemma NoRows(log: seq<Fields>, table: seq<Row>, now: int)
    ensures table + RowsOf(log, [], now) == table
  {
  }

  /** A batch of what is outstanding goes through and leaves the rest storable. */
  lemma BatchClears(db: Schema, s: State, ids: set<nat>, batch: seq<nat>, now: int)
    requires KeysUnique(s.table) && Increasing(batch) && StorableTogether(db, s, ids)
    requires forall i :: i in batch ==> i in s.pel && i in ids
    ensures var (t, ok) := Outcome(db, s, batch, now);
      && ok && t == s.(pel := t.pel, acked := t.acked, table := t.table)
      && t.pel == s.pel - Members(batch) && StorableTogether(db, t, ids - Members(batch))
  {
    hide StorableTogether, Storable, Outcome, KeysUnique, RowsOf, ParseableIn;
    SupersetStorable(db, s, ids, batch);
    SucceedsExactly(db, s, batch, now);
    OutcomeStores(db, s, batch, now);
    RestIsStorable(db, s, ids, batch, now);
    var t := Outcome(db, s, batch, now).0;
    OnlyTableMatters(db, s.(table := t.table), t, ids - Members(batch));
  }

  lemma OnlyTableMatters(db: Schema, s: State, t: State, ids: set<nat>)
    requires s.log == t.log && s.table == t.table
    ensures StorableTogether(db, s, ids) <==> StorableTogether(db, t, ids)
  {
    hide Decode, Schema.Accepts, Key, HasKey;
  }

  // ----- One pass

  /** With everything idle, a reclaim takes the first 500 pending entries, or all there are. */
  lemma ClaimShrinks(s: State, idle: set<nat>)
    requires s.pel.Keys <= idle && s.head <= s.next && forall i :: i in s.pel ==> i < s.next
    ensures var left := s.pel.Keys - Gone(s) - Members(Claimable(s, idle, s.next));
      left == {} || |left| + BATCH_SIZE <= |s.pel|
  {
    hide Claimable;
    var left := s.pel.Keys - Gone(s) - Members(Claimable(s, idle, s.next));
    if left != {} {
      hide Gone, AmongFirst, PendingBelow;
      var m := Least(left);
      FarDown(s, idle, m);
      var below := PendingBelow(s, m);
      BelowLeast(s, m, left);
      SubsetCount(below + left, s.pel.Keys);
    }
  }

  lemma BelowLeast(s: State, m: nat, left: set<nat>)
    requires left <= s.pel.Keys && forall i :: i in left ==> m <= i
    ensures PendingBelow(s, m) !! left && PendingBelow(s, m) + left <= s.pel.Keys
  {
  }

  /** A pending entry that a reclaim of idle entries neither takes nor deletes has a batch of pending ones before it. */
  lemma FarDown(s: State, idle: set<nat>, m: nat)
    requires m in s.pel && s.pel.Keys <= idle && m !in Gone(s) && !AmongFirst(s, idle, m)
    ensures |PendingBelow(s, m)| >= BATCH_SIZE
  {
    if m >= s.head {
      var trimmed, eligible := Trimmed(s), EligibleBelow(s, idle, m);
      assert PendingBelow(s, m) == trimmed + eligible && trimmed !! eligible;
    }
  }

  lemma {:induction false} Least(ids: set<nat>) returns (m: nat)
    requires ids != {}
    ensures m in ids && forall i :: i in ids ==> m <= i
  {
    var x :| x in ids;
    m := x;
    assert forall i :: i in ids ==> i == x || i in ids - {x};
    if ids - {x} != {} {
      var n := Least(ids - {x});
      if n < x { m := n; }
    }
  }

  lemma ClearBounds(db: Schema, s: State)
    requires Clear(db, s)
    ensures s.head <= s.next <= |s.log| && KeysUnique(s.table) && forall i :: i in s.pel ==> i < s.next && i !in s.acked
  {
    hide StorableTogether;
    InvBounds(db, s);
    forall i | i in s.pel ensures i < s.next && i !in s.acked { PendingIsDelivered(db, s, i); }
  }

  /** What a reclaim of idle entries leaves: the pending entries it did not meet, and the rest of what was
      outstanding. */
  lemma ReclaimLeaves(db: Schema, s: State, w: nat, idle: set<nat>, now: int)
    requires Clear(db, s)
    ensures var (t, ok), batch := AfterClaim(db, s, w, idle, now), Claimable(s, idle, s.next);
      && ok && t.log == s.log && t.head == s.head && t.next == s.next
      && t.pel.Keys == s.pel.Keys - Gone(s) - Members(batch)
      && StorableTogether(db, t, Outstanding(s) - Members(batch))
  {
    hide Inv, StorableTogether, Claimable, Gone, Outcome, KeysUnique, AmongFirst;
    ClearBounds(db, s);
    var batch, claimed := Claimable(s, idle, s.next), Claimed(s, w, idle);
    forall i | i in batch ensures i in s.pel && s.head <= i && i !in Gone(s) { FirstIsLive(s, idle, i); }
    OnlyTableMatters(db, s, claimed, Outstanding(s));
    if batch == [] {
      assert Outstanding(s) - Members(batch) == Outstanding(s);
    } else {
      BatchClears(db, claimed, Outstanding(s), batch, now);
    }
  }

  /** A reclaim of idle entries clears a batch of them, trimmed ones included. */
  lemma ReclaimClears(db: Schema, s: State, w: nat, idle: set<nat>, now: int)
    requires Clear(db, s) && s.pel.Keys <= idle
    ensures var (t, ok) := AfterClaim(db, s, w, idle, now);
      && ok && Clear(db, t) && t.log == s.log && t.head == s.head && t.next == s.next
      && t.pel.Keys <= s.pel.Keys && (t.pel == map[] || |t.pel| + BATCH_SIZE <= |s.pel|)
  {
    hide Inv, StorableTogether, Claimable, Gone, AfterClaim;
    ClearBounds(db, s);
    ClaimShrinks(s, idle);
    ReclaimLeaves(db, s, w, idle, now);
    var t := AfterClaim(db, s, w, idle, now).0;
    var run := ClaimIsRun(db, s, w, idle, now);
    RunKeepsInv(db, s, run);
    GoneIsTrimmed(s);
    assert |t.pel| == |t.pel.Keys| && |s.pel| == |s.pel.Keys|;
    assert Outstanding(t) == Outstanding(s) - Members(Claimable(s, idle, s.next));
    ClaimLeavesNoWorker(db, s, w, idle, now);
  }

  lemma FirstIsLive(s: State, idle: set<nat>, i: nat)
    requires AmongFirst(s, idle, i)
    ensures i in s.pel && s.head <= i && i !in Gone(s)
  {
  }

  lemma GoneIsTrimmed(s: State)
    ensures forall i :: i in Gone(s) ==> i in s.pel && i < s.head
  {
  }

  /** A read of outstanding entries clears them. */
  lemma ReadClears(db: Schema, s: State, w: nat, now: int)
    requires Clear(db, s)
    ensures var t := AfterRead(db, s, w, now);
      && Clear(db, t) && t.log == s.log && t.head == s.head && t.next == Min(s.next + BATCH_SIZE, |s.log|)
      && t.pel == s.pel
  {
    hide Inv, StorableTogether, Outcome, KeysUnique;
    ClearBounds(db, s);
    var t := AfterRead(db, s, w, now);
    var run := ReadIsRun(db, s, w, now);
    RunKeepsInv(db, s, run);
    ReadLeavesNoWorker(db, s, w, now);
    if s.next < |s.log| {
      var batch, delivered := Fresh(s), Delivered(s, w);
      OnlyTableMatters(db, s, delivered, Outstanding(s));
      BatchClears(db, delivered, Outstanding(s), batch, now);
      assert t.pel == s.pel;
      assert Outstanding(t) == Outstanding(s) - Members(batch);
    }
  }

  lemma PassClears(db: Schema, s: State, w: nat, due: bool, idle: set<nat>, now: int)
    requires Clear(db, s) && (due ==> s.pel.Keys <= idle)
    ensures var t := AfterPass(db, s, w, due, idle, now);
      && Clear(db, t) && t.log == s.log && t.head == s.head && t.next == Min(s.next + BATCH_SIZE, |s.log|)
      && t.pel.Keys <= s.pel.Keys
      && (due ==> t.pel == map[] || |t.pel| + BATCH_SIZE <= |s.pel|) && (!due ==> t.pel == s.pel)
  {
    hide Clear, AfterClaim, AfterRead;
    if due { ReclaimClears(db, s, w, idle, now); }
    ReadClears(db, if due then AfterClaim(db, s, w, idle, now).0 else s, w, now);
  }

  // ----- Any number of passes

  /** The loop of one worker that is not interrupted: when a reclaim is due, what is idle then, and the clock. */
  function AfterPasses(
    db: Schema, s: State, w: nat, due: nat -> bool, idle: nat -> set<nat>, now: nat -> int, n: nat): State
  {
    if n == 0 then s
    else AfterPass(db, AfterPasses(db, s, w, due, idle, now, n - 1), w, due(n - 1), idle(n - 1), now(n - 1))
  }

  function Reclaims(due: nat -> bool, n: nat): nat {
    if n == 0 then 0 else Reclaims(due, n - 1) + if due(n - 1) then 1 else 0
  }

  /** How far n passes with d reclaims among them have got. */
  ghost predicate Progress(db: Schema, s: State, t: State, n: nat, d: nat) {
    && Clear(db, t) && t.log == s.log && t.head == s.head && t.next == Min(s.next + BATCH_SIZE * n, |s.log|)
    && t.pel.Keys <= s.pel.Keys && (t.pel == map[] || |t.pel| + BATCH_SIZE * d <= |s.pel|)
  }

  lemma OneMorePass(db: Schema, s: State, t: State, n: nat, d: nat, w: nat, due: bool, idle: set<nat>, now: int)
    requires Progress(db, s, t, n, d) && (due ==> s.pel.Keys <= idle)
    ensures Progress(db, s, AfterPass(db, t, w, due, idle, now), n + 1, if due then d + 1 else d)
  {
    hide Clear, AfterPass;
    PassClears(db, t, w, due, idle, now);
    var u := AfterPass(db, t, w, due, idle, now);
    if t.pel == map[] { assert u.pel.Keys == {}; assert u.pel == map[]; }
  }

  lemma {:induction false} PassesClear(
    db: Schema, s: State, w: nat, due: nat -> bool, idle: nat -> set<nat>, now: nat -> int, n: nat)
    requires Clear(db, s) && forall k: nat :: k < n && due(k) ==> s.pel.Keys <= idle(k)
    ensures Progress(db, s, AfterPasses(db, s, w, due, idle, now, n), n, Reclaims(due, n))
  {
    hide Clear, AfterPass;
    if n == 0 {
      ClearBounds(db, s);
    } else {
      hide Progress;
      PassesClear(db, s, w, due, idle, now, n - 1);
      OneMorePass(db, s, AfterPasses(db, s, w, due, idle, now, n - 1), n - 1, Reclaims(due, n - 1),
                  w, due(n - 1), idle(n - 1), now(n - 1));
    }
  }

  /** The backlog is worked off: once there have been enough passes for the unread entries and enough reclaims for the
      pending ones, nothing is pending or unread, and every entry that was outstanding is acknowledged. */
  lemma BacklogIsCleared(
    db: Schema, s: State, w: nat, due: nat -> bool, idle: nat -> set<nat>, now: nat -> int, n: nat)
    requires Clear(db, s) && forall k: nat :: k < n && due(k) ==> s.pel.Keys <= idle(k)
    requires 500 * n >= |s.log| - s.next && 500 * Reclaims(due, n) >= |s.pel|
    ensures var t := AfterPasses(db, s, w, due, idle, now, n);
      && t.pel == map[] && t.next == |t.log| == |s.log| && Inv(db, t)
      && forall i :: i in Outstanding(s) ==> i in t.acked && (Parseable(t.log, i) ==> HasRow(t.table, i))
  {
    hide Clear, Parseable, HasRow;
    PassesClear(db, s, w, due, idle, now, n);
    var t := AfterPasses(db, s, w, due, idle, now, n);
    assert |t.pel| > 0 || t.pel == map[];
    ClearBounds(db, s);
    SettledIsAcked(db, s, t);
  }

  lemma SettledIsAcked(db: Schema, s: State, t: State)
    requires Clear(db, s) && Clear(db, t) && t.log == s.log && t.head == s.head && t.pel == map[] && t.next == |t.log|
    ensures Inv(db, t) && forall i :: i in Outstanding(s) ==>
      i in t.acked && (Parseable(t.log, i) ==> HasRow(t.table, i))
  {
    hide Parseable, HasRow, StorableTogether, TableSound;
    ClearBounds(db, s);
  }

  /** And only then: whatever any workers do, everything outstanding is acknowledged only if it was storable
      together. */
  lemma ClearingNeedsStorable(db: Schema, s: State, run: seq<Action>)
    requires Inv(db, s) && s.workers == map[] && s.next <= |s.log| && Legal(db, s, run)
    requires forall i :: i in Outstanding(s) ==> i in After(db, s, run).acked
    ensures StorableTogether(db, s, Outstanding(s))
  {
    hide Decode, Schema.Accepts, Legal, After, Inv, Key, HasKey;
    RunKeepsInv(db, s, run);
    RunGrows(db, s, run);
    var t := After(db, s, run);
    forall i | i in Outstanding(s) && Parseable(s.log, i)
      ensures db.Accepts(Decode(s.log[i]).value) && !HasKey(s.table, Key(Decode(s.log[i]).value))
    {
      OutstandingWaits(db, s, i);
      AckedWasInsertable(db, s, run, i);
    }
    forall i, j | i in Outstanding(s) && j in Outstanding(s) && i != j && Parseable(s.log, i) && Parseable(s.log, j)
      ensures Key(Decode(s.log[i]).value) != Key(Decode(s.log[j]).value)
    {
      assert t.log[i] == s.log[i] && t.log[j] == s.log[j];
      var k := RowOfAcked(db, t, i);
      var l := RowOfAcked(db, t, j);
      RowsDiffer(db, t, k, l);
    }
  }

  lemma OutstandingWaits(db: Schema, s: State, i: nat)
    requires Inv(db, s) && s.workers == map[] && s.next <= |s.log| && i in Outstanding(s)
    ensures Waiting(s, i)
  {
    InvBounds(db, s);
    if i in s.pel { PendingIsDelivered(db, s, i); }
  }
}
