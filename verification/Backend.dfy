/** The worker itself: Redis and PostgreSQL state updated in place, batch by batch. */
module Backend {
  import opened Text
  import opened Calendar
  import opened Ranges
  import opened Wire
  import opened Stream
  import opened Persister
  import opened Draining

  /** The operational state of a device that the dashboard shows, `device:live:<id>`, and when it runs out (seconds). */
  datatype Live = Live(lastSeenAt: string, power: string, temperature: string, expiry: int)

  const LIVE_SECONDS: int := 300

  const NAUGHT: Decimal := Number(false, 0, 0)

  /** `value or 0.0`: a missing measurement and a zero of either sign both read 0.0. */
  function OrZero(r: Reading, f: Field): Decimal {
    if f in r.metrics && r.metrics[f].digits != 0 then r.metrics[f] else NAUGHT
  }

  function LiveOf(r: Reading, receivedAt: int): Live
    requires r.Valid()
  {
    Live(r.recordedAt.IsoText(), FloatText(OrZero(r, PowerKw)), FloatText(OrZero(r, Temperature)),
        receivedAt + LIVE_SECONDS)
  }

  /** The hash of a device, unless five minutes have passed since its last reading came in. */
  function LiveAt(live: map<nat, Live>, device: nat, now: int): Option<Live> {
    if device in live && now < live[device].expiry then Some(live[device]) else None
  }

  /** What a reader of the live state learns about the reading it was made from, and for how long. */
  lemma LiveReadsBack(live: map<nat, Live>, device: nat, r: Reading, receivedAt: int, now: int)
    requires r.Valid()
    ensures var shown := LiveAt(live[device := LiveOf(r, receivedAt)], device, now);
      && (shown.Some? <==> now < receivedAt + 300)
      && (shown.Some? ==>
            && ParseIso(shown.value.lastSeenAt) == Some(r.recordedAt)
            && ParseFloat(shown.value.power) == Some(if PowerKw in r.metrics then ToReal(r.metrics[PowerKw]) else 0.0)
            && ParseFloat(shown.value.temperature)
               == Some(if Temperature in r.metrics then ToReal(r.metrics[Temperature]) else 0.0))
  {
    hide FloatText, ParseFloat, ParseIso, Timestamp.IsoText;
    IsoReadsBack(r.recordedAt);
    FloatTextReadsBack(OrZero(r, PowerKw));
    FloatTextReadsBack(OrZero(r, Temperature));
  }

  /** The actions of an ingest endpoint: entries are added, and each XADD may trim old ones. */
  predicate Ingests(run: seq<Action>) {
    forall a :: a in run ==> a.Add? || a.Trim?
  }

  /** What XREADGROUP delivers. */
  lemma ReadTakesNext(s: State, w: nat)
    ensures var messages, t := Fresh(s), Delivered(s, w);
      && |messages| <= BATCH_SIZE && (|messages| < BATCH_SIZE ==> t.next >= |s.log|)
      && s.next <= t.next <= Max(s.next, |s.log|) && messages == Range(s.next, t.next)
      && (forall i :: i in messages ==> i in t.pel && t.pel[i] == w)
      && (forall i :: i !in messages ==> (i in t.pel <==> i in s.pel) && (i in t.pel ==> t.pel[i] == s.pel[i]))
      && (EntriesAccounted(s) ==> forall i :: i in messages ==> i !in s.pel && i !in s.acked && i !in s.dropped)
  {
  }

  lemma OneMoreMessage(log: seq<Fields>, messages: seq<nat>, n: nat, now: int)
    requires n < |messages|
    ensures var ids := ParseableIn(log, messages[..n]);
      && ParseableIn(log, messages[..n + 1]) == (if Parseable(log, messages[n]) then ids + [messages[n]] else ids)
      && RowsOf(log, ParseableIn(log, messages[..n + 1]), now)
        == RowsOf(log, ids, now) + (if Parseable(log, messages[n]) then [RowOf(log, messages[n], now)] else [])
  {
    hide Parseable, RowOf;
    assert messages[..n + 1][..n] == messages[..n];
  }

  // ----- The scan of XAUTOCLAIM

  /** Where the scan stands before entry i: everything trimmed or eligible so far has been taken, and what is left of
      COUNT and of the attempts. */
  ghost predicate Scanning(
      s: State, idle: set<nat>, i: nat, claimed: seq<nat>, gone: set<nat>, count: nat, attempts: nat) {
    && Increasing(claimed)
    && (forall j :: j in claimed <==> j in EligibleBelow(s, idle, i))
    && gone == PendingBelow(s, Min(i, s.head))
    && count + |gone| + |claimed| == BATCH_SIZE && attempts + |PendingBelow(s, i)| == SCAN_LIMIT
  }

  lemma ScanStarts(s: State, idle: set<nat>)
    ensures Scanning(s, idle, 0, [], {}, BATCH_SIZE, SCAN_LIMIT)
  {
    assert PendingBelow(s, 0) == {} && EligibleBelow(s, idle, 0) == {};
  }

  lemma ScanSkips(s: State, idle: set<nat>, i: nat, claimed: seq<nat>, gone: set<nat>, count: nat, attempts: nat)
    requires Scanning(s, idle, i, claimed, gone, count, attempts) && i !in s.pel
    ensures Scanning(s, idle, i + 1, claimed, gone, count, attempts)
  {
    assert PendingBelow(s, i + 1) == PendingBelow(s, i) && EligibleBelow(s, idle, i + 1) == EligibleBelow(s, idle, i);
    assert PendingBelow(s, Min(i + 1, s.head)) == gone;
  }

  lemma ScanMeetsTrimmed(s: State, idle: set<nat>, i: nat, claimed: seq<nat>, gone: set<nat>, count: nat, attempts: nat)
    requires Scanning(s, idle, i, claimed, gone, count, attempts) && i in s.pel && count > 0 && attempts > 0
    requires i < s.head
    ensures Scanning(s, idle, i + 1, claimed, gone + {i}, count - 1, attempts - 1)
  {
    assert PendingBelow(s, i + 1) == PendingBelow(s, i) + {i};
    assert gone == PendingBelow(s, i) && PendingBelow(s, Min(i + 1, s.head)) == gone + {i};
    assert EligibleBelow(s, idle, i + 1) == EligibleBelow(s, idle, i);
  }

  lemma ScanMeetsIdle(s: State, idle: set<nat>, i: nat, claimed: seq<nat>, gone: set<nat>, count: nat, attempts: nat)
    requires Scanning(s, idle, i, claimed, gone, count, attempts) && i in s.pel && count > 0 && attempts > 0
    requires s.head <= i && i in idle
    ensures Scanning(s, idle, i + 1, claimed + [i], gone, count - 1, attempts - 1)
  {
    assert PendingBelow(s, i + 1) == PendingBelow(s, i) + {i};
    assert EligibleBelow(s, idle, i + 1) == EligibleBelow(s, idle, i) + {i};
    hide PendingBelow;
    assert Min(i, s.head) == s.head == Min(i + 1, s.head);
    forall k | 0 <= k < |claimed| ensures claimed[k] < i { assert claimed[k] in claimed; }
  }

  lemma ScanMeetsBusy(s: State, idle: set<nat>, i: nat, claimed: seq<nat>, gone: set<nat>, count: nat, attempts: nat)
    requires Scanning(s, idle, i, claimed, gone, count, attempts) && i in s.pel && count > 0 && attempts > 0
    requires s.head <= i && i !in idle
    ensures Scanning(s, idle, i + 1, claimed, gone, count, attempts - 1)
  {
    assert PendingBelow(s, i + 1) == PendingBelow(s, i) + {i};
    assert EligibleBelow(s, idle, i + 1) == EligibleBelow(s, idle, i);
    hide PendingBelow, EligibleBelow;
    assert Min(i, s.head) == s.head == Min(i + 1, s.head);
  }

  lemma MetInTime(s: State, idle: set<nat>, i: nat, claimed: seq<nat>, gone: set<nat>, count: nat, attempts: nat)
    requires Scanning(s, idle, i, claimed, gone, count, attempts) && i in s.pel && count > 0 && attempts > 0
    ensures i < s.head ==> i in Gone(s)
    ensures s.head <= i && i in idle ==> AmongFirst(s, idle, i)
  {
    if i >= s.head { DistinctCount(claimed, EligibleBelow(s, idle, i)); }
  }

  /** When the scan is over, at the end of the list or for want of COUNT or attempts, it has taken what it should. */
  lemma ScanEnds(s: State, idle: set<nat>, i: nat, claimed: seq<nat>, gone: set<nat>, count: nat, attempts: nat)
    requires Scanning(s, idle, i, claimed, gone, count, attempts) && s.head <= s.next
    requires i <= s.next && (i == s.next || count == 0 || attempts == 0)
    requires forall j :: j in claimed ==> AmongFirst(s, idle, j)
    requires forall j :: j in gone ==> j in Gone(s)
    ensures claimed == Claimable(s, idle, s.next) && gone == Gone(s)
  {
    hide Claimable;
    forall j: nat | j < s.next && AmongFirst(s, idle, j) ensures j in claimed {
      NothingMissed(s, idle, i, claimed, gone, count, attempts, j);
    }
    SameMembers(claimed, Claimable(s, idle, s.next));
    forall j | j in Gone(s) ensures j in gone {
      if i < s.next { NothingLeft(s, idle, i, claimed, gone, count, attempts, j); }
    }
  }

  lemma NothingMissed(
    s: State, idle: set<nat>, i: nat, claimed: seq<nat>, gone: set<nat>, count: nat, attempts: nat, j: nat)
    requires Scanning(s, idle, i, claimed, gone, count, attempts) && i <= s.next
    requires i == s.next || count == 0 || attempts == 0
    requires AmongFirst(s, idle, j) && j < s.next
    ensures j in claimed
  {
    if i <= j {
      SubsetCount(PendingBelow(s, i), PendingBelow(s, j));
      SubsetCount(gone, Trimmed(s));
      var taken := EligibleBelow(s, idle, i);
      DistinctCount(claimed, taken);
      SubsetCount(taken, EligibleBelow(s, idle, j));
    }
  }

  lemma NothingLeft(
    s: State, idle: set<nat>, i: nat, claimed: seq<nat>, gone: set<nat>, count: nat, attempts: nat, j: nat)
    requires Scanning(s, idle, i, claimed, gone, count, attempts) && (count == 0 || attempts == 0)
    requires j in Gone(s)
    ensures j in gone
  {
    if i <= j {
      SubsetCount(PendingBelow(s, i), PendingBelow(s, j));
      SubsetCount(gone, PendingBelow(s, j));
      assert EligibleBelow(s, idle, i) == {};
      DistinctCount(claimed, {});
    }
  }

  lemma SameEmptiness(a: seq<nat>, b: seq<nat>)
    requires forall i: nat :: i in a <==> i in b
    ensures a == [] <==> b == []
  {
    assert |a| > 0 ==> a[0] in a;
    assert |b| > 0 ==> b[0] in b;
  }

  lemma {:induction false} SameMembers(a: seq<nat>, b: seq<nat>)
    requires Increasing(a) && Increasing(b) && forall i: nat :: i in a <==> i in b
    ensures a == b
    decreases |a|
  {
    SameEmptiness(a, b);
    if a != [] {
      var x, y := a[|a| - 1], b[|b| - 1];
      assert x in a && y in b;
      assert x == y by {
        var m :| 0 <= m < |b| && b[m] == x;
        var n :| 0 <= n < |a| && a[n] == y;
      }
      var a', b' := a[..|a| - 1], b[..|b| - 1];
      assert a == a' + [x] && b == b' + [x];
      forall i: nat ensures i in a' <==> i in b' {
        assert i in a' ==> i in a && i < x;
        assert i in b' ==> i in b && i < x;
      }
      SameMembers(a', b');
    }
  }

  lemma EmptyInterval(dropped: set<nat>, i: nat)
    ensures dropped + Interval(i, i) == dropped
  {
  }

  lemma NextEntries(s: State)
    ensures Fresh(s) == if s.next < |s.log| then Range(s.next, Min(s.next + BATCH_SIZE, |s.log|)) else []
  {
  }

  lemma ClaimedAreLive(s: State, idle: set<nat>)
    ensures forall i :: i in Claimable(s, idle, s.next) ==> i in s.pel && i !in Gone(s)
  {
  }

  class Store {
    var log: seq<Fields>
    var head: nat
    var next: nat
    var pel: map<nat, nat>
    var acked: set<nat>
    var dropped: set<nat>
    var table: seq<Row>
    var live: map<nat, Live>

    constructor ()
      ensures View() == INIT
    {
      log, head, next, pel, acked, dropped, table, live := [], 0, 0, map[], {}, {}, [], map[];
    }

    ghost function View(): State
      reads this
    {
      State(log, head, next, pel, acked, dropped, table, map[])
    }

    /** XADD with an approximate MAXLEN: Redis may trim old entries, as many as it likes, but keeps half a million. */
    method XAdd(ghost db: Schema, fields: Fields, trim: nat) returns (ghost run: seq<Action>)
      modifies this`log, this`head, this`next, this`dropped
      ensures log == old(log) + [fields]
      ensures Ingests(run) && Legal(db, old(View()), run) && View() == After(db, old(View()), run)
      ensures old(head) <= old(next) && |log| <= old(next) + STREAM_MAXLEN ==>
        head <= next && next == old(next) && dropped == old(dropped)
    {
      hide Legal, After, Interval;
      One(db, View(), Add(fields));
      log := log + [fields];
      run := [Add(fields)];
      if head + trim + STREAM_MAXLEN <= |log| {
        ghost var added := View();
        One(db, added, Trim(trim));
        Compose(db, old(View()), run, [Trim(trim)]);
        head := head + trim;
        var unread := next;
        next := Max(next, head);
        if unread == next { EmptyInterval(dropped, next); }
        dropped := dropped + Interval(unread, next);
        run := run + [Trim(trim)];
      }
    }

    /** The batch ingest endpoint: one XADD per reading, in order, and the live state of the last one. Everything it
        does to the stream is a run of additions and trimming; a batch arriving at a stream that has been read up to
        half a million entries before the batch's end trims no unread entry. */
    method IngestBatch(
        ghost db: Schema, readings: seq<Reading>, ids: seq<nat>, device: nat, site: nat, trims: seq<nat>, now: int)
      returns (ghost run: seq<Action>)
      requires |ids| == |readings| == |trims| && readings != []
      requires forall k :: 0 <= k < |readings| ==> readings[k].Valid()
      modifies this`log, this`head, this`next, this`dropped, this`live
      ensures |log| == |old(log)| + |readings| && old(log) <= log
      ensures forall k :: 0 <= k < |readings| ==> log[|old(log)| + k] == Encode(readings[k], ids[k], device, site)
      ensures Ingests(run) && Legal(db, old(View()), run) && View() == After(db, old(View()), run)
      ensures old(head) <= old(next) && |log| <= old(next) + STREAM_MAXLEN ==>
        head <= next && next == old(next) && dropped == old(dropped)
      ensures live == old(live)[device := LiveOf(readings[|readings| - 1], now)]
    {
      hide Encode, LiveOf, Legal, After;
      run := Nothing(db, View());
      for n := 0 to |readings|
        invariant |log| == |old(log)| + n && old(log) <= log && live == old(live)
        invariant forall k :: 0 <= k < n ==> log[|old(log)| + k] == Encode(readings[k], ids[k], device, site)
        invariant Ingests(run) && Legal(db, old(View()), run) && View() == After(db, old(View()), run)
        invariant old(head) <= old(next) && |log| <= old(next) + STREAM_MAXLEN ==>
          head <= next && next == old(next) && dropped == old(dropped)
      {
        ghost var steps := XAdd(db, Encode(readings[n], ids[n], device, site), trims[n]);
        Compose(db, old(View()), run, steps);
        run := run + steps;
      }
      live := live[device := LiveOf(readings[|readings| - 1], now)];
    }

    method XAck(ids: set<nat>)
      modifies this`pel, this`acked
      ensures View() == Acknowledge(old(View()), ids)
    {
      acked := acked + (ids * pel.Keys);
      pel := pel - ids;
    }

    /** COPY within a transaction; false stands for the exception. */
    method CopyRecords(db: Schema, records: seq<Row>) returns (ok: bool)
      modifies this`table
      ensures ok == Copyable(db, old(table), records)
      ensures table == if ok then old(table) + records else old(table)
    {
      ok := Copyable(db, table, records);
      if ok { table := table + records; }
    }

    /** `process_stream_entries`; false stands for the exception that reaches the consumer loop. */
    method ProcessStreamEntries(db: Schema, messages: seq<nat>, now: int) returns (ok: bool)
      modifies this
      ensures (View(), ok) == Outcome(db, old(View()), messages, now)
    {
      hide Schema.Accepts, Decode, Copyable;
      var records: seq<Row> := [];
      var messageIds: seq<nat> := [];
      assert UnparseableIn(log, messages[..0]) == {};
      assert Acknowledge(View(), {}) == View();
      for n := 0 to |messages|
        invariant messageIds == ParseableIn(log, messages[..n])
        invariant records == RowsOf(log, messageIds, now)
        invariant View() == Acknowledge(old(View()), UnparseableIn(log, messages[..n]))
      {
        hide ParseableIn, RowsOf, Acknowledge, UnparseableIn;
        AcknowledgeOneMore(old(View()), messages, n + 1);
        OneMoreMessage(log, messages, n, now);
        if Parseable(log, messages[n]) {
          records := records + [RowOf(log, messages[n], now)];
          messageIds := messageIds + [messages[n]];
        } else {
          XAck({messages[n]});
        }
      }
      assert messages[..|messages|] == messages;
      if records == [] { return true; }
      ok := CopyRecords(db, records);
      if ok { XAck(set i | i in messageIds); }
    }

    /** The scan of XAUTOCLAIM from 0-0 over the pending list: trimmed entries and idle ones use up the COUNT, and every
        entry it meets is an attempt. */
    method ScanPending(idle: set<nat>) returns (claimed: seq<nat>, gone: set<nat>)
      requires head <= next
      ensures claimed == Claimable(View(), idle, next) && gone == Gone(View())
    {
      hide Claimable, Increasing, Scanning, AmongFirst, Gone;
      claimed, gone := [], {};
      var i, count, attempts := 0, BATCH_SIZE, SCAN_LIMIT;
      ScanStarts(View(), idle);
      while i < next && count > 0 && attempts > 0
        invariant i <= next && Scanning(View(), idle, i, claimed, gone, count, attempts)
        invariant forall j :: j in claimed ==> AmongFirst(View(), idle, j)
        invariant forall j :: j in gone ==> j in Gone(View())
        decreases next - i
      {
        if i in pel {
          MetInTime(View(), idle, i, claimed, gone, count, attempts);
          if i < head {
            ScanMeetsTrimmed(View(), idle, i, claimed, gone, count, attempts);
            gone, count := gone + {i}, count - 1;
          } else if i in idle {
            ScanMeetsIdle(View(), idle, i, claimed, gone, count, attempts);
            claimed, count := claimed + [i], count - 1;
          } else {
            ScanMeetsBusy(View(), idle, i, claimed, gone, count, attempts);
          }
          attempts := attempts - 1;
        } else {
          ScanSkips(View(), idle, i, claimed, gone, count, attempts);
        }
        i := i + 1;
      }
      ScanEnds(View(), idle, i, claimed, gone, count, attempts);
    }

    /** XAUTOCLAIM: the first idle entries change owner, trimmed ones are deleted from the pending list. */
    method XAutoClaim(w: nat, idle: set<nat>) returns (claimed: seq<nat>)
      requires head <= next
      modifies this`pel, this`dropped
      ensures Increasing(claimed) && |claimed| <= 500
      ensures forall i :: i in claimed ==> i in pel && pel[i] == w
      ensures forall i :: i !in claimed ==>
        (i in pel <==> i in old(pel) && i !in Gone(old(View()))) && (i in pel ==> pel[i] == old(pel)[i])
      ensures forall i: nat :: i in claimed <==> i < next && AmongFirst(old(View()), idle, i)
      ensures View() == Claimed(old(View()), w, idle) && claimed == Claimable(old(View()), idle, next)
    {
      hide Claimable, AmongFirst, Increasing, Gone;
      var gone: set<nat>;
      claimed, gone := ScanPending(idle);
      ClaimFits(View(), idle, next);
      ClaimedAreLive(View(), idle);
      pel := (pel - gone) + Owned(claimed, w);
      assert pel == Claimed(old(View()), w, idle).pel;
      dropped := dropped + gone;
    }

    /** XREADGROUP with `>`: the next entries in stream order, never delivered before, become pending for the worker;
        fewer than a batch only if the stream has no more. */
    method XReadGroup(w: nat) returns (messages: seq<nat>)
      modifies this`pel, this`next
      ensures |messages| <= 500 && (|messages| < 500 ==> next >= |log|)
      ensures old(next) <= next <= Max(old(next), |log|) && messages == Range(old(next), next)
      ensures forall i :: i in messages ==> i in pel && pel[i] == w
      ensures forall i :: i !in messages ==> (i in pel <==> i in old(pel)) && (i in pel ==> pel[i] == old(pel)[i])
      ensures EntriesAccounted(old(View())) ==> forall i :: i in messages ==>
        i !in old(pel) && i !in acked && i !in dropped
      ensures View() == Delivered(old(View()), w) && messages == Fresh(old(View()))
    {
      hide EntriesAccounted, Fresh, Delivered;
      ghost var before := View();
      messages := Deliver(w);
      ReadTakesNext(before, w);
    }

    method Deliver(w: nat) returns (messages: seq<nat>)
      modifies this`pel, this`next
      ensures View() == Delivered(old(View()), w) && messages == Fresh(old(View()))
    {
      hide Range, Fresh, Owned;
      NextEntries(View());
      messages := if next < |log| then Range(next, Min(next + BATCH_SIZE, |log|)) else [];
      pel := pel + Owned(messages, w);
      next := next + |messages|;
    }

    /** One pass of the body of `run_consumer_loop`. */
    method ConsumerPass(db: Schema, w: nat, currentTime: real, lastClaimCheck: real, idle: set<nat>, now: int)
      returns (newClaimCheck: real)
      requires head <= next
      modifies this
      ensures newClaimCheck == if currentTime - lastClaimCheck > 15.0 then currentTime else lastClaimCheck
      ensures View() == AfterPass(db, old(View()), w, currentTime - lastClaimCheck > 15.0, idle, now)
    {
      hide Outcome, Claimed, Claimable, AmongFirst, Increasing, Fresh, Delivered, Range, EntriesAccounted;
      newClaimCheck := lastClaimCheck;
      if currentTime - lastClaimCheck > 15.0 {
        newClaimCheck := currentTime;
        var claimed := XAutoClaim(w, idle);
        if claimed != [] {
          var ok := ProcessStreamEntries(db, claimed, now);
          if !ok { return; }
        }
      }
      var messages := XReadGroup(w);
      if messages != [] {
        var _ := ProcessStreamEntries(db, messages, now);
      }
    }

    /** The consumer loop of one worker that never crashes, until everything in the stream has been read.
        From an empty pending list, with every remaining entry unparseable or storable, it takes one pass per
        batch, acknowledges every entry, and appends exactly the remaining parseable entries, decoded, in order. */
    method RunConsumerLoop(
        db: Schema, w: nat, clock: nat -> real, idle: nat -> set<nat>, now: nat -> int) returns (passes: nat)
      requires Quiet(db, View())
      modifies this
      ensures log == old(log) && next == |log| && pel == map[]
      ensures acked == old(acked) + Interval(old(next), |log|)
      ensures dropped == old(dropped)
      ensures |table| >= |old(table)| && table[..|old(table)|] == old(table)
      ensures Holds(table[|old(table)|..], log, ParseableIn(log, Range(old(next), |log|)))
      ensures passes == (|log| - old(next) + 499) / 500
    {
      hide Quiet, Holds, AfterPass, ParseableIn;
      passes := 0;
      var lastClaimCheck := 0.0;
      DrainedNothing(db, View());
      while next < |log|
        invariant Quiet(db, View())
        invariant Drained(old(View()), View())
        invariant next == Min(old(next) + BATCH_SIZE * passes, |log|)
        invariant passes == (next - old(next) + BATCH_SIZE - 1) / BATCH_SIZE
        decreases |log| - next
      {
        ghost var before := View();
        QuietMeansEmpty(db, before);
        lastClaimCheck := ConsumerPass(db, w, clock(passes), lastClaimCheck, idle(passes), now(passes));
        PassDrains(db, before, w, View(), idle(passes), now(passes));
        DrainedTwice(old(View()), before, View());
        passes := passes + 1;
      }
      QuietMeansEmpty(db, View());
    }
  }
}
