/** The evaluator's consumer group: no reclaim, one acknowledgement per entry whether it succeeds or fails. */
module Evaluators {
  import opened Text
  import opened Calendar
  import opened Wire
  import opened Ranges

  const READ_COUNT: nat := 50

  /** A worker's batch is a run of consecutive entries: `at` is the one in hand, `hi` the end, and `announced` says
      whether the tick of the entry in hand has been broadcast. */
  datatype Phase = Phase(at: nat, hi: nat, announced: bool)

  /** One telemetry.tick frame. */
  datatype Tick = Tick(entry: nat, worker: nat)

  /** `readBy` remembers, for the proofs, which worker each entry was delivered to. */
  datatype State = State(
    log: seq<Fields>, next: nat, acked: set<nat>, ticks: seq<Tick>,
    workers: map<nat, Phase>, readBy: map<nat, nat>)

  const INIT := State([], 0, {}, [], map[], map[])

  datatype Action = Add(fields: Fields) | Read(w: nat) | Broadcast(w: nat) | Ack(w: nat) | Crash(w: nat)

  /** An entry reaches the broadcast unless one of the steps before it raises. */
  predicate Broadcastable(fields: Fields) {
    && DeviceId in fields && SiteId in fields && RecordedAt in fields
    && ParseIso(fields[RecordedAt]).Some? && EvaluationData(fields).Some?
  }

  predicate Enabled(s: State, a: Action) {
    match a
    case Add(_) => true
    case Read(w) => w !in s.workers && s.next < |s.log|
    case Broadcast(w) =>
      && w in s.workers && !s.workers[w].announced
      && s.workers[w].at < |s.log| && Broadcastable(s.log[s.workers[w].at])
    case Ack(w) => w in s.workers
    case Crash(w) => w in s.workers
  }

  /** Ack covers the end of a successful entry and the handler of a failed one, whichever step raised. */
  function Apply(s: State, a: Action): State
    requires Enabled(s, a)
  {
    match a
    case Add(fields) => s.(log := s.log + [fields])
    case Read(w) =>
      var hi := Min(s.next + READ_COUNT, |s.log|);
      s.(next := hi, workers := s.workers[w := Phase(s.next, hi, false)],
         readBy := s.readBy + (map i | i in Interval(s.next, hi) :: w))
    case Broadcast(w) =>
      s.(ticks := s.ticks + [Tick(s.workers[w].at, w)], workers := s.workers[w := s.workers[w].(announced := true)])
    case Ack(w) =>
      var Phase(at, hi, _) := s.workers[w];
      s.(acked := s.acked + {at},
         workers := if at + 1 == hi then s.workers - {w} else s.workers[w := Phase(at + 1, hi, false)])
    case Crash(w) => s.(workers := s.workers - {w})
  }

  predicate Legal(s: State, run: seq<Action>)
    decreases |run|, 0
  {
    run == [] ||
    (Legal(s, run[..|run| - 1]) && Enabled(After(s, run[..|run| - 1]), run[|run| - 1]))
  }

  function After(s: State, run: seq<Action>): State
    requires Legal(s, run)
    decreases |run|, 1
  {
    if run == [] then s else Apply(After(s, run[..|run| - 1]), run[|run| - 1])
  }

  // ----- The invariant

  predicate Holds(s: State, w: nat, i: nat) {
    w in s.workers && s.workers[w].at <= i < s.workers[w].hi
  }

  /** Whatever has been announced will not be announced again: it is nobody's future work. */
  predicate Announced(s: State, i: nat) {
    && i < s.next && i in s.readBy
    && forall w :: w in s.workers && Holds(s, w, i) ==> i == s.workers[w].at && s.workers[w].announced
  }

  ghost predicate Inv(s: State) {
    && s.next <= |s.log|
    && (forall i :: i in s.readBy <==> 0 <= i < s.next)
    && (forall w :: w in s.workers ==> s.workers[w].at < s.workers[w].hi <= s.next)
    && (forall w, i :: Holds(s, w, i) ==> i in s.readBy && s.readBy[i] == w && i !in s.acked)
    && (forall i :: i in s.acked ==> i < s.next)
    && (forall k :: 0 <= k < |s.ticks| ==>
         Announced(s, s.ticks[k].entry) && s.readBy[s.ticks[k].entry] == s.ticks[k].worker)
    && (forall j, k :: 0 <= j < k < |s.ticks| ==> s.ticks[j].entry != s.ticks[k].entry)
  }

  lemma ReadKeepsInv(s: State, w: nat)
    requires Inv(s) && Enabled(s, Read(w))
    ensures Inv(Apply(s, Read(w)))
  {
    var t := Apply(s, Read(w));
    forall v, i | Holds(t, v, i) ensures i in t.readBy && t.readBy[i] == v && i !in t.acked {
      if v != w { assert Holds(s, v, i); }
    }
    forall k | 0 <= k < |s.ticks| ensures Announced(t, s.ticks[k].entry)
        && t.readBy[s.ticks[k].entry] == s.ticks[k].worker {
      assert Announced(s, s.ticks[k].entry);
      forall v | v in t.workers && Holds(t, v, s.ticks[k].entry)
        ensures s.ticks[k].entry == t.workers[v].at && t.workers[v].announced
      {
        assert Holds(s, v, s.ticks[k].entry);
      }
    }
  }

  lemma BroadcastKeepsInv(s: State, w: nat)
    requires Inv(s) && Enabled(s, Broadcast(w))
    ensures Inv(Apply(s, Broadcast(w)))
  {
    hide Broadcastable;
    var t, at := Apply(s, Broadcast(w)), s.workers[w].at;
    assert Holds(s, w, at);
    forall v, i | Holds(t, v, i) ensures Holds(s, v, i) {}
    forall k | 0 <= k < |s.ticks| ensures s.ticks[k].entry != at && Announced(t, s.ticks[k].entry) {
      assert Announced(s, s.ticks[k].entry);
    }
  }

  lemma AckKeepsInv(s: State, w: nat)
    requires Inv(s) && Enabled(s, Ack(w))
    ensures Inv(Apply(s, Ack(w)))
  {
    var t := Apply(s, Ack(w));
    assert Holds(s, w, s.workers[w].at);
    forall v, i | Holds(t, v, i) ensures Holds(s, v, i) && i != s.workers[w].at {
      assert Holds(s, v, i);
    }
    forall k | 0 <= k < |s.ticks| ensures Announced(t, s.ticks[k].entry) {
      assert Announced(s, s.ticks[k].entry);
    }
  }

  lemma CrashKeepsInv(s: State, w: nat)
    requires Inv(s) && Enabled(s, Crash(w))
    ensures Inv(Apply(s, Crash(w)))
  {
    var t := Apply(s, Crash(w));
    forall v, i | Holds(t, v, i) ensures Holds(s, v, i) {}
    forall k | 0 <= k < |s.ticks| ensures Announced(t, s.ticks[k].entry) {
      assert Announced(s, s.ticks[k].entry);
    }
  }

  lemma AddKeepsInv(s: State, fields: Fields)
    requires Inv(s)
    ensures Inv(s.(log := s.log + [fields]))
  {
    var t := s.(log := s.log + [fields]);
    forall v, i | Holds(t, v, i) ensures Holds(s, v, i) {}
    forall k | 0 <= k < |s.ticks| ensures Announced(t, s.ticks[k].entry) {
      assert Announced(s, s.ticks[k].entry);
    }
  }

  lemma StepKeepsInv(s: State, a: Action)
    requires Inv(s) && Enabled(s, a)
    ensures Inv(Apply(s, a))
  {
    hide Inv;
    match a
    case Add(fields) => AddKeepsInv(s, fields);
    case Read(w) => ReadKeepsInv(s, w);
    case Broadcast(w) => BroadcastKeepsInv(s, w);
    case Ack(w) => AckKeepsInv(s, w);
    case Crash(w) => CrashKeepsInv(s, w);
  }

  lemma {:induction false} RunKeepsInv(s: State, run: seq<Action>)
    requires Inv(s) && Legal(s, run)
    ensures Inv(After(s, run))
  {
    hide Inv;
    if run != [] {
      RunKeepsInv(s, run[..|run| - 1]);
      StepKeepsInv(After(s, run[..|run| - 1]), run[|run| - 1]);
    }
  }

  /** A read delivers the next entries, at most fifty, and all of them to the one worker that reads. */
  lemma ReadDelivers(s: State, w: nat)
    requires s.next <= |s.log| && Enabled(s, Read(w))
    ensures var t := Apply(s, Read(w));
      && t.next == (if s.next + 50 <= |s.log| then s.next + 50 else |s.log|)
      && (forall i :: s.next <= i < t.next ==> Holds(t, w, i) && i in t.readBy && t.readBy[i] == w)
      && (forall v, i :: v != w ==> (Holds(t, v, i) <==> Holds(s, v, i)))
  {
  }

  // ----- At most once

  predicate Ticked(s: State, i: nat) { exists k :: 0 <= k < |s.ticks| && s.ticks[k].entry == i }

  /** In any run of any number of workers with crashes, every entry is broadcast at most once, by the one worker it was
      delivered to, and an entry that is broadcast carried a payload the evaluator could read. */
  lemma BroadcastAtMostOnce(run: seq<Action>, j: nat, k: nat)
    requires Legal(INIT, run) && j <= k < |After(INIT, run).ticks|
    ensures var s := After(INIT, run);
      && (s.ticks[j].entry == s.ticks[k].entry <==> j == k)
      && s.ticks[k].entry in s.readBy && s.readBy[s.ticks[k].entry] == s.ticks[k].worker
      && s.ticks[k].entry < |s.log| && Broadcastable(s.log[s.ticks[k].entry])
  {
    RunKeepsInv(INIT, run);
    assert Announced(After(INIT, run), After(INIT, run).ticks[k].entry);
    TicksWereReadable(run, k);
  }

  lemma {:induction false} TicksWereReadable(run: seq<Action>, k: nat)
    requires Legal(INIT, run) && k < |After(INIT, run).ticks|
    ensures var s := After(INIT, run); s.ticks[k].entry < |s.log| && Broadcastable(s.log[s.ticks[k].entry])
  {
    hide Broadcastable;
    if run != [] && k < |After(INIT, run[..|run| - 1]).ticks| { TicksWereReadable(run[..|run| - 1], k); }
  }

  lemma AbandonedStep(s: State, a: Action, i: nat)
    requires Inv(s) && Enabled(s, a) && i < s.next && forall w :: w in s.workers ==> !Holds(s, w, i)
    ensures var t := Apply(s, a);
      && i < t.next && (forall w :: w in t.workers ==> !Holds(t, w, i))
      && (i in t.acked <==> i in s.acked) && (Ticked(t, i) <==> Ticked(s, i))
  {
    hide Broadcastable;
    var t := Apply(s, a);
    if a.Broadcast? || a.Ack? {
      assert !Holds(s, a.w, i) && Holds(s, a.w, s.workers[a.w].at);
    }
    forall w | w in t.workers ensures !Holds(t, w, i) {
      if w in s.workers { assert !Holds(s, w, i); }
    }
    forall k | 0 <= k < |s.ticks| ensures t.ticks[k] == s.ticks[k] {}
  }

  /** An entry nobody holds any more is settled: never acknowledged if it was not, never broadcast if it was not. */
  lemma {:induction false} AbandonedForever(s: State, run: seq<Action>, i: nat)
    requires Inv(s) && Legal(s, run) && i < s.next && forall w :: w in s.workers ==> !Holds(s, w, i)
    ensures var t := After(s, run);
      && i < t.next && (forall w :: w in t.workers ==> !Holds(t, w, i))
      && (i in t.acked <==> i in s.acked) && (Ticked(t, i) <==> Ticked(s, i))
  {
    hide Inv, Holds, Ticked;
    if run != [] {
      var before := run[..|run| - 1];
      AbandonedForever(s, before, i);
      RunKeepsInv(s, before);
      AbandonedStep(After(s, before), run[|run| - 1], i);
    }
  }

  /** A crash loses the rest of the worker's batch for good: no later run acknowledges or broadcasts it. */
  lemma CrashLosesBatch(s: State, w: nat, later: seq<Action>, i: nat)
    requires Inv(s) && w in s.workers && Holds(s, w, i)
    requires Legal(Apply(s, Crash(w)), later)
    ensures var t := After(Apply(s, Crash(w)), later);
      i !in t.acked && (Ticked(t, i) <==> Ticked(s, i))
  {
    var crashed := Apply(s, Crash(w));
    CrashKeepsInv(s, w);
    forall v | v in crashed.workers ensures !Holds(crashed, v, i) {
      assert Holds(crashed, v, i) ==> Holds(s, v, i);
    }
    AbandonedForever(crashed, later, i);
  }

  // ----- One batch

  function TicksOf(log: seq<Fields>, lo: nat, hi: nat, w: nat): seq<Tick>
    requires lo <= hi <= |log|
  {
    if lo == hi then []
    else TicksOf(log, lo, hi - 1, w) + (if Broadcastable(log[hi - 1]) then [Tick(hi - 1, w)] else [])
  }

  // ----- Which entries are broadcast

  /** The entry is what the ingest endpoints write for some reading. */
  ghost predicate IsIngested(fields: Fields) {
    exists r: Reading, id, device, site ::
      r.Valid() && IsUuid(id) && IsUuid(device) && IsUuid(site) && fields == Encode(r, id, device, site)
  }

  /** Every ingested reading reaches the broadcast. */
  lemma ReadingIsBroadcast(fields: Fields)
    requires IsIngested(fields)
    ensures Broadcastable(fields)
  {
    hide Decode, Encode, EvaluationData, ParseIso;
    var r: Reading, id, device, site :|
      r.Valid() && IsUuid(id) && IsUuid(device) && IsUuid(site) && fields == Encode(r, id, device, site);
    HasIdentifiers(r, id, device, site);
    IdentifiersReadBack(r, id, device, site);
    DecodeInvertsEncode(r, id, device, site);
    ConsumersAgree(fields);
  }

  lemma HasIdentifiers(r: Reading, id: nat, device: nat, site: nat)
    requires r.Valid()
    ensures DeviceId in Encode(r, id, device, site) && SiteId in Encode(r, id, device, site)
    ensures RecordedAt in Encode(r, id, device, site)
  {
    hide UuidText, Timestamp.IsoText, IntText, MetricFields;
  }

  /** So does every entry that the persister accepts, if it names a site. */
  lemma AcceptedIsBroadcast(fields: Fields)
    requires Decode(fields).Some? && SiteId in fields
    ensures Broadcastable(fields)
  {
    hide ParseIso, ParseUuid, ParseFloat;
    ConsumersAgree(fields);
  }

  /** An entry is skipped for one of these reasons only: a missing identifier, a missing or malformed timestamp, or
      one of the seven measurements that is there, not blank and not a number. */
  lemma SkippedExactly(fields: Fields)
    ensures !Broadcastable(fields) <==>
      || DeviceId !in fields || SiteId !in fields || RecordedAt !in fields || ParseIso(fields[RecordedAt]) == None
      || exists f :: f in {Voltage, Current, PowerKw, Temperature, Pressure, Frequency, PowerFactor}
           && f in fields && !Blank(fields[f]) && ParseFloat(fields[f]) == None
  {
    hide ParseIso, ParseFloat, Blank;
    assert EVALUATED == {Voltage, Current, PowerKw, Temperature, Pressure, Frequency, PowerFactor};
  }

  /** One tick per entry, in order. */
  function AllTicks(lo: nat, hi: nat, w: nat): (ticks: seq<Tick>)
    requires lo <= hi
    ensures |ticks| == hi - lo && forall k :: 0 <= k < |ticks| ==> ticks[k] == Tick(lo + k, w)
  {
    seq(hi - lo, k requires 0 <= k => Tick(lo + k, w))
  }

  lemma {:induction false} IngestedAreBroadcast(log: seq<Fields>, lo: nat, hi: nat, w: nat)
    requires lo <= hi <= |log| && forall i :: lo <= i < hi ==> IsIngested(log[i])
    ensures TicksOf(log, lo, hi, w) == AllTicks(lo, hi, w)
  {
    hide IsIngested, Broadcastable;
    if lo < hi {
      IngestedAreBroadcast(log, lo, hi - 1, w);
      ReadingIsBroadcast(log[hi - 1]);
      assert AllTicks(lo, hi, w) == AllTicks(lo, hi - 1, w) + [Tick(hi - 1, w)];
    }
  }

  class Worker {
    var acked: set<nat>
    var ticks: seq<Tick>

    /** `process_evaluation_entries` on the entries lo..hi: each readable entry is broadcast once, in order, and every
        entry is acknowledged. Ingested readings are all readable. */
    method ProcessEvaluationEntries(log: seq<Fields>, lo: nat, hi: nat, w: nat)
      requires lo <= hi <= |log|
      modifies this
      ensures ticks == old(ticks) + TicksOf(log, lo, hi, w)
      ensures acked == old(acked) + Interval(lo, hi)
      ensures (forall i :: lo <= i < hi ==> IsIngested(log[i])) ==> ticks == old(ticks) + AllTicks(lo, hi, w)
    {
      hide Broadcastable, Interval, IsIngested, AllTicks;
      if forall i :: lo <= i < hi ==> IsIngested(log[i]) { IngestedAreBroadcast(log, lo, hi, w); }
      AckNone(acked, lo);
      for i := lo to hi
        invariant ticks == old(ticks) + TicksOf(log, lo, i, w)
        invariant acked == old(acked) + Interval(lo, i)
      {
        if Broadcastable(log[i]) { ticks := ticks + [Tick(i, w)]; }
        // reached from the end of the try block and from its handler alike
        AckOneMore(old(acked), lo, i);
        acked := acked + {i};
      }
    }
  }

  lemma AckNone(acked: set<nat>, lo: nat)
    ensures acked + Interval(lo, lo) == acked
  {
  }

  lemma AckOneMore(acked: set<nat>, lo: nat, i: nat)
    requires lo <= i
    ensures acked + Interval(lo, i) + {i} == acked + Interval(lo, i + 1)
  {
    hide Interval;
  }

  lemma Extend(s: State, run: seq<Action>, a: Action)
    requires Legal(s, run) && Enabled(After(s, run), a)
    ensures Legal(s, run + [a]) && After(s, run + [a]) == Apply(After(s, run), a)
  {
    hide Enabled, Apply;
    assert (run + [a])[..|run|] == run;
  }

  /** The steps of one entry: broadcast it if it can be read, then acknowledge it. */
  lemma EntryIsRun(s: State, w: nat, run: seq<Action>) returns (longer: seq<Action>)
    requires Legal(s, run)
    requires var t := After(s, run);
      w in t.workers && !t.workers[w].announced && t.workers[w].at + 1 < t.workers[w].hi <= |t.log|
    ensures Legal(s, longer)
    ensures var t, at := After(s, run), After(s, run).workers[w].at;
      After(s, longer) == t.(ticks := t.ticks + (if Broadcastable(t.log[at]) then [Tick(at, w)] else []),
                             acked := t.acked + {at},
                             workers := t.workers[w := Phase(at + 1, t.workers[w].hi, false)])
  {
    hide Broadcastable, Legal, After;
    var t := After(s, run);
    longer := run;
    if Broadcastable(t.log[t.workers[w].at]) {
      Extend(s, longer, Broadcast(w));
      longer := longer + [Broadcast(w)];
    }
    Extend(s, longer, Ack(w));
    longer := longer + [Ack(w)];
  }

  /** The entries before the n-th as a run. */
  lemma {:induction false} PrefixIsRun(s: State, w: nat, n: nat) returns (run: seq<Action>)
    requires w in s.workers && s.workers[w].at <= n < s.workers[w].hi <= |s.log| && !s.workers[w].announced
    ensures Legal(s, run)
    ensures After(s, run) == s.(ticks := s.ticks + TicksOf(s.log, s.workers[w].at, n, w),
                               acked := s.acked + Interval(s.workers[w].at, n),
                               workers := s.workers[w := Phase(n, s.workers[w].hi, false)])
  {
    hide Broadcastable, Interval;
    var lo, hi := s.workers[w].at, s.workers[w].hi;
    if n == lo {
      run := [];
      assert s.workers[w := Phase(lo, hi, false)] == s.workers;
      AckNone(s.acked, lo);
    } else {
      hide Legal, After;
      run := PrefixIsRun(s, w, n - 1);
      run := EntryIsRun(s, w, run);
      AckOneMore(s.acked, lo, n - 1);
    }
  }

  /** The last step of a batch: its entry is acknowledged and the worker is free again. */
  lemma LastEntryIsRun(s: State, w: nat, run: seq<Action>) returns (longer: seq<Action>)
    requires Legal(s, run)
    requires var t := After(s, run);
      w in t.workers && !t.workers[w].announced && t.workers[w].at + 1 == t.workers[w].hi <= |t.log|
    ensures Legal(s, longer)
    ensures var t, at := After(s, run), After(s, run).workers[w].at;
      After(s, longer) == t.(ticks := t.ticks + (if Broadcastable(t.log[at]) then [Tick(at, w)] else []),
                             acked := t.acked + {at}, workers := t.workers - {w})
  {
    hide Broadcastable, Legal, After;
    var t := After(s, run);
    longer := run;
    if Broadcastable(t.log[t.workers[w].at]) {
      Extend(s, longer, Broadcast(w));
      longer := longer + [Broadcast(w)];
      assert After(s, longer).workers - {w} == t.workers - {w};
    }
    Extend(s, longer, Ack(w));
    longer := longer + [Ack(w)];
  }

  /** The batch as a run: what the method above leaves behind is what the worker's own steps leave behind, and the
      worker holds no batch afterwards. */
  lemma BatchIsRun(s: State, w: nat) returns (run: seq<Action>)
    requires w in s.workers && s.workers[w].at < s.workers[w].hi <= |s.log| && !s.workers[w].announced
    ensures Legal(s, run)
    ensures After(s, run) == s.(ticks := s.ticks + TicksOf(s.log, s.workers[w].at, s.workers[w].hi, w),
                               acked := s.acked + Interval(s.workers[w].at, s.workers[w].hi),
                               workers := s.workers - {w})
  {
    hide Broadcastable, Interval, Legal, After;
    var lo, hi := s.workers[w].at, s.workers[w].hi;
    run := PrefixIsRun(s, w, hi - 1);
    var before := After(s, run);
    run := LastEntryIsRun(s, w, run);
    AckOneMore(s.acked, lo, hi - 1);
    assert before.workers - {w} == s.workers - {w};
  }
}
