/** Reclaiming as the clock allows it: pending entries carry the time of their last delivery, and XAUTOCLAIM takes
    what has been idle for 30 seconds. From this follows exactly which pending entries can still be acknowledged. */
module Reclaim {
  import opened Ranges
  import opened Wire
  import opened Stream
  import opened Persister

  /** `min_idle_time`, in milliseconds. */
  const MIN_IDLE: int := 30_000

  /** The consumer group with a clock, in milliseconds, and the delivery time of each pending entry. */
  datatype Timed = Timed(s: State, now: int, at: map<nat, int>)

  datatype Move = Tick(to: int) | Do(step: Action)

  function Idle(t: Timed): set<nat> {
    set i | i in t.at && t.at[i] + MIN_IDLE <= t.now
  }

  lemma IdleExactly(t: Timed, i: nat)
    ensures i in Idle(t) <==> i in t.at && t.now - t.at[i] >= 30_000
  {
  }

  /** A step of the consumer group, except that a reclaim has no choice in what it takes. */
  predicate Possible(db: Schema, t: Timed, m: Move) {
    match m
    case Tick(to) => t.now <= to
    case Do(a) =>
      && Enabled(db, t.s, a)
      && (a.Claim? ==> a.batch == Claimable(t.s, Idle(t), t.s.next) && a.gone == Gone(t.s))
  }

  /** The entries an action delivers; all of them are stamped with the same time. */
  function Deliveries(s: State, a: Action): seq<nat> {
    if a.Read? then Fresh(s) else if a.Claim? then a.batch else []
  }

  function Perform(db: Schema, t: Timed, m: Move): Timed
    requires Possible(db, t, m)
  {
    match m
    case Tick(to) => t.(now := to)
    case Do(a) => Timed(Apply(db, t.s, a), t.now, t.at + (map i | i in Deliveries(t.s, a) :: t.now))
  }

  predicate Timely(db: Schema, t: Timed, run: seq<Move>)
    decreases |run|, 0
  {
    run == [] ||
    (Timely(db, t, run[..|run| - 1]) && Possible(db, Reached(db, t, run[..|run| - 1]), run[|run| - 1]))
  }

  function Reached(db: Schema, t: Timed, run: seq<Move>): Timed
    requires Timely(db, t, run)
    decreases |run|, 1
  {
    if run == [] then t else Perform(db, Reached(db, t, run[..|run| - 1]), run[|run| - 1])
  }

  // ----- Timed runs are runs

  function Steps(run: seq<Move>): seq<Action> {
    if run == [] then []
    else Steps(run[..|run| - 1]) + (if run[|run| - 1].Do? then [run[|run| - 1].step] else [])
  }

  /** Apart from its clock, a timed run is a legal run of the consumer group, so all that was proved of those holds. */
  lemma {:induction false} TimedIsRun(db: Schema, t: Timed, run: seq<Move>)
    requires Timely(db, t, run)
    ensures Legal(db, t.s, Steps(run)) && After(db, t.s, Steps(run)) == Reached(db, t, run).s
  {
    if run == [] {
      var _ := Nothing(db, t.s);
    } else {
      hide Legal, After, Enabled, Apply;
      var init, last := run[..|run| - 1], run[|run| - 1];
      TimedIsRun(db, t, init);
      if last.Do? {
        One(db, Reached(db, t, init).s, last.step);
        Compose(db, t.s, Steps(init), [last.step]);
      } else {
        assert Steps(init) + [] == Steps(init);
      }
    }
  }

  lemma TimedKeepsInv(db: Schema, t: Timed, run: seq<Move>)
    requires Inv(db, t.s) && Timely(db, t, run)
    ensures Inv(db, Reached(db, t, run).s)
  {
    hide Inv, Timely, Reached;
    TimedIsRun(db, t, run);
    RunKeepsInv(db, t.s, Steps(run));
  }

  lemma {:induction false} Chain(db: Schema, t: Timed, first: seq<Move>, second: seq<Move>)
    requires Timely(db, t, first) && Timely(db, Reached(db, t, first), second)
    ensures Timely(db, t, first + second)
    ensures Reached(db, t, first + second) == Reached(db, Reached(db, t, first), second)
    decreases |second|
  {
    hide Possible, Perform;
    if second == [] {
      assert first + second == first;
    } else {
      var init := second[..|second| - 1];
      Chain(db, t, first, init);
      assert (first + second)[..|first + second| - 1] == first + init;
    }
  }

  lemma Move1(db: Schema, t: Timed, m: Move)
    requires Possible(db, t, m)
    ensures Timely(db, t, [m]) && Reached(db, t, [m]) == Perform(db, t, m)
  {
    hide Possible, Perform;
    assert [m][..0] == [];
  }

  /** Every pending entry has a delivery time, and none lies in the future. */
  predicate Stamped(t: Timed) {
    forall i :: i in t.s.pel ==> i in t.at && t.at[i] <= t.now
  }

  lemma StepKeepsStamps(db: Schema, t: Timed, m: Move)
    requires Stamped(t) && Possible(db, t, m)
    ensures Stamped(Perform(db, t, m))
  {
    hide Copyable, Claimable, Gone, Parseable;
  }

  // ----- Companions

  /** No reclaim from now on takes one of the two without the other: they were last delivered at the same moment, or
      both are idle already. */
  predicate Together(t: Timed, i: nat, j: nat) {
    && i in t.at && j in t.at
    && (t.at[i] == t.at[j] || (t.at[i] + MIN_IDLE <= t.now && t.at[j] + MIN_IDLE <= t.now))
  }

  /** The pending entries from `low` on that every reclaim of i takes along. */
  function Companions(t: Timed, i: nat, low: nat): set<nat> {
    set j | j in t.s.pel && low <= j && Together(t, i, j)
  }

  /** No worker holds the entry. */
  predicate Unheld(s: State, j: nat) {
    forall w :: w in s.workers ==> j !in Held(s.workers[w])
  }

  function Held(p: Phase): seq<nat> {
    match p
    case Parsing(batch, _, _) => batch
    case Acking(ids) => ids
  }

  // ----- What is stuck stays stuck

  /** Storable, for a set of entries. */
  predicate StorableTogether(db: Schema, s: State, ids: set<nat>) {
    && (forall i :: i in ids && Parseable(s.log, i) ==>
          db.Accepts(Decode(s.log[i]).value) && !HasKey(s.table, Key(Decode(s.log[i]).value)))
    && (forall i, j :: i in ids && j in ids && i != j && Parseable(s.log, i) && Parseable(s.log, j) ==>
          Key(Decode(s.log[i]).value) != Key(Decode(s.log[j]).value))
  }

  lemma SubsetStorable(db: Schema, s: State, batch: seq<nat>, ids: set<nat>)
    requires Storable(db, s, batch) && forall i :: i in ids && Parseable(s.log, i) ==> i in batch
    ensures StorableTogether(db, s, ids)
  {
    hide Decode, Schema.Accepts, HasKey, Key;
  }

  lemma SupersetStorable(db: Schema, s: State, ids: set<nat>, batch: seq<nat>)
    requires StorableTogether(db, s, ids) && forall i :: i in batch && Parseable(s.log, i) ==> i in ids
    ensures Storable(db, s, batch)
  {
    hide Decode, Schema.Accepts, HasKey, Key;
  }

  /** Rows are never deleted, so what cannot be stored now never can be. */
  lemma StorableBefore(db: Schema, s: State, t: State, ids: set<nat>)
    requires s.log <= t.log && s.table <= t.table && forall i :: i in ids ==> i < |s.log|
    requires StorableTogether(db, t, ids)
    ensures StorableTogether(db, s, ids)
  {
    hide Decode, Schema.Accepts, Key;
    forall i | i in ids && Parseable(s.log, i)
      ensures db.Accepts(Decode(s.log[i]).value) && !HasKey(s.table, Key(Decode(s.log[i]).value))
    {
      assert t.log[i] == s.log[i] && Parseable(t.log, i);
      forall k | 0 <= k < |s.table| ensures Key(s.table[k].record) != Key(Decode(s.log[i]).value) {
        assert t.table[k] == s.table[k];
      }
    }
    forall i, j | i in ids && j in ids && i != j && Parseable(s.log, i) && Parseable(s.log, j)
      ensures Key(Decode(s.log[i]).value) != Key(Decode(s.log[j]).value)
    {
      assert t.log[i] == s.log[i] && t.log[j] == s.log[j];
    }
  }

  /** The worker holds none of the group, or is parsing a batch that has all of it. */
  predicate AllOrNone(p: Phase, group: set<nat>) {
    match p
    case Parsing(batch, _, _) => forall j, k :: j in group && j in batch && k in group ==> k in batch
    case Acking(ids) => forall j :: j in group ==> j !in ids
  }

  predicate NotAlone(p: Phase, i: nat, group: set<nat>) {
    match p
    case Parsing(batch, _, _) => i in batch ==> forall k :: k in group ==> k in batch
    case Acking(ids) => i !in ids
  }

  /** The group is inseparable while its entry i is in the stream; once i is trimmed no reclaim takes it any more. */
  predicate Bound(t: Timed, i: nat, group: set<nat>) {
    t.s.head <= i ==>
      && (forall j :: j in group ==> t.s.head <= j && j in t.s.pel && Together(t, i, j))
      && (forall w :: w in t.s.workers ==> AllOrNone(t.s.workers[w], group))
  }

  /** Entry i waits in a group of entries below n that are inseparable and not storable together. */
  predicate Stuck(db: Schema, t: Timed, i: nat, group: set<nat>, n: nat) {
    && i in group && i !in t.s.acked
    && (forall j :: j in group ==> j < n && Parseable(t.s.log, j))
    && n <= t.s.next <= |t.s.log| && |PendingBelow(t.s, n)| <= BATCH_SIZE
    && !StorableTogether(db, t.s, group)
    && Bound(t, i, group)
    && (forall w :: w in t.s.workers ==> NotAlone(t.s.workers[w], i, group))
  }

  lemma ClaimTakesAllOrNone(t: Timed, i: nat, group: set<nat>, n: nat, j: nat, k: nat)
    requires Bound(t, i, group) && t.s.head <= i && i in group
    requires (forall j :: j in group ==> j < n) && n <= t.s.next && |PendingBelow(t.s, n)| <= BATCH_SIZE
    requires j in group && k in group && j in Claimable(t.s, Idle(t), t.s.next)
    ensures k in Claimable(t.s, Idle(t), t.s.next)
  {
    hide Claimable;
    assert Together(t, i, j) && Together(t, i, k);
    FewPending(t.s, Idle(t), n, k);
  }

  /** With no more than a batch of pending entries below n, a reclaim takes every idle one of them. */
  lemma FewPending(s: State, idle: set<nat>, n: nat, k: nat)
    requires |PendingBelow(s, n)| <= BATCH_SIZE
    requires k < n && k in s.pel && k in idle && s.head <= k
    ensures AmongFirst(s, idle, k)
  {
    var below := PendingBelow(s, k);
    SubsetCount(below + {k}, PendingBelow(s, n));
    var trimmed, eligible := Trimmed(s), EligibleBelow(s, idle, k);
    assert trimmed !! eligible && trimmed + eligible <= below;
    SubsetCount(trimmed + eligible, below);
  }

  lemma FewerPending(s: State, t: State, n: nat)
    requires forall j :: j in t.pel && j < n ==> j in s.pel
    ensures |PendingBelow(t, n)| <= |PendingBelow(s, n)|
  {
    SubsetCount(PendingBelow(t, n), PendingBelow(s, n));
  }

  lemma TickKeepsStuck(db: Schema, t: Timed, to: int, i: nat, group: set<nat>, n: nat)
    requires Stuck(db, t, i, group, n) && t.now <= to
    ensures Stuck(db, t.(now := to), i, group, n)
  {
    hide StorableTogether, PendingBelow, Parseable;
  }

  lemma AddOrTrimKeepsStuck(db: Schema, t: Timed, a: Action, i: nat, group: set<nat>, n: nat)
    requires Stuck(db, t, i, group, n) && Enabled(db, t.s, a) && (a.Add? || a.Trim?)
    requires a.Trim? ==> forall j :: j in group ==> i <= j
    ensures Stuck(db, t.(s := Apply(db, t.s, a)), i, group, n)
  {
    hide StorableTogether, PendingBelow, Decode;
    var u := Apply(db, t.s, a);
    if StorableTogether(db, u, group) { StorableBefore(db, t.s, u, group); }
    FewerPending(t.s, u, n);
  }

  lemma ReadEffect(db: Schema, s: State, a: Action)
    requires a.Read? && Enabled(db, s, a)
    ensures var t := Apply(db, s, a);
      && t == s.(next := t.next, pel := t.pel, workers := s.workers[a.w := Parsing(Fresh(s), 0, a.now)])
      && s.next <= t.next <= |t.log|
      && (forall j :: j in s.pel ==> j in t.pel) && (forall j :: j in t.pel && j < s.next ==> j in s.pel)
      && (forall j :: j in Fresh(s) ==> s.next <= j)
  {
  }

  lemma ReadKeepsStuck(db: Schema, t: Timed, a: Action, i: nat, group: set<nat>, n: nat)
    requires Stuck(db, t, i, group, n) && a.Read? && Possible(db, t, Do(a))
    ensures Stuck(db, Perform(db, t, Do(a)), i, group, n)
  {
    hide StorableTogether, PendingBelow, Parseable, Apply, Fresh;
    var u := Perform(db, t, Do(a));
    ReadEffect(db, t.s, a);
    if StorableTogether(db, u.s, group) { StorableBefore(db, t.s, u.s, group); }
    FewerPending(t.s, u.s, n);
  }

  lemma ClaimEffect(db: Schema, s: State, a: Action)
    requires a.Claim? && Enabled(db, s, a)
    ensures var t := Apply(db, s, a);
      && t == s.(pel := t.pel, dropped := t.dropped, workers := t.workers)
      && t.workers == (if a.batch == [] then s.workers else s.workers[a.w := Parsing(a.batch, 0, a.now)])
      && (forall j :: j in t.pel <==> j in s.pel && j !in a.gone)
  {
  }

  /** A reclaim keeps a group together as long as its entry is in the stream. */
  lemma ClaimKeepsBound(db: Schema, t: Timed, a: Action, i: nat, group: set<nat>, n: nat)
    requires a.Claim? && Possible(db, t, Do(a)) && Bound(t, i, group) && i in group
    requires (forall j :: j in group ==> j < n) && n <= t.s.next && |PendingBelow(t.s, n)| <= BATCH_SIZE
    ensures Bound(Perform(db, t, Do(a)), i, group)
    ensures i in a.batch ==> forall k :: k in group ==> k in a.batch
  {
    hide PendingBelow, Claimable, Idle, Apply;
    ClaimEffect(db, t.s, a);
    if t.s.head <= i {
      forall j, k | j in group && j in a.batch && k in group ensures k in a.batch {
        ClaimTakesAllOrNone(t, i, group, n, j, k);
      }
    }
  }

  lemma ClaimKeepsStuck(db: Schema, t: Timed, a: Action, i: nat, group: set<nat>, n: nat)
    requires Stuck(db, t, i, group, n) && a.Claim? && Possible(db, t, Do(a))
    ensures Stuck(db, Perform(db, t, Do(a)), i, group, n)
  {
    hide StorableTogether, PendingBelow, Parseable, Claimable, Idle, Apply, Bound, Gone;
    var u := Perform(db, t, Do(a));
    ClaimEffect(db, t.s, a);
    if StorableTogether(db, u.s, group) { StorableBefore(db, t.s, u.s, group); }
    FewerPending(t.s, u.s, n);
    ClaimKeepsBound(db, t, a, i, group, n);
  }

  lemma CommitKeepsStuck(db: Schema, t: Timed, a: Action, i: nat, group: set<nat>, n: nat)
    requires Stuck(db, t, i, group, n) && Enabled(db, t.s, a) && a.Commit?
    ensures Stuck(db, t.(s := Apply(db, t.s, a)), i, group, n)
  {
    hide StorableTogether, PendingBelow, Decode, Copyable, Storable;
    var s, u := t.s, Apply(db, t.s, a);
    if StorableTogether(db, u, group) { StorableBefore(db, s, u, group); }
    FewerPending(s, u, n);
    var Parsing(batch, _, now) := s.workers[a.w];
    StorableWhenCopyable(db, s, batch, now);
    assert !(forall k :: k in group ==> k in batch) by {
      if forall k :: k in group ==> k in batch { SubsetStorable(db, s, batch, group); }
    }
  }

  lemma ParseKeepsStuck(db: Schema, t: Timed, a: Action, i: nat, group: set<nat>, n: nat)
    requires Stuck(db, t, i, group, n) && Enabled(db, t.s, a) && a.Parse?
    ensures Stuck(db, t.(s := Apply(db, t.s, a)), i, group, n)
  {
    hide StorableTogether, PendingBelow, Decode;
    var s, u := t.s, Apply(db, t.s, a);
    if StorableTogether(db, u, group) { StorableBefore(db, s, u, group); }
    FewerPending(s, u, n);
  }

  lemma LeavingKeepsStuck(db: Schema, t: Timed, a: Action, i: nat, group: set<nat>, n: nat)
    requires Stuck(db, t, i, group, n) && Enabled(db, t.s, a) && (a.Finish? || a.CopyFail? || a.Crash? || a.Ack?)
    ensures Stuck(db, t.(s := Apply(db, t.s, a)), i, group, n)
  {
    hide StorableTogether, PendingBelow, Decode, Copyable;
    var s, u := t.s, Apply(db, t.s, a);
    if StorableTogether(db, u, group) { StorableBefore(db, s, u, group); }
    FewerPending(s, u, n);
  }

  lemma StepKeepsStuck(db: Schema, t: Timed, m: Move, i: nat, group: set<nat>, n: nat)
    requires Stuck(db, t, i, group, n) && Possible(db, t, m)
    requires m.Do? && m.step.Trim? ==> forall j :: j in group ==> i <= j
    ensures Stuck(db, Perform(db, t, m), i, group, n)
  {
    hide Stuck, Enabled, Apply;
    match m
    case Tick(to) => TickKeepsStuck(db, t, to, i, group, n);
    case Do(a) =>
      if a.Read? {
        ReadKeepsStuck(db, t, a, i, group, n);
      } else if a.Claim? {
        ClaimKeepsStuck(db, t, a, i, group, n);
      } else {
        NothingStamped(t.at, t.now);
        if a.Add? || a.Trim? {
          AddOrTrimKeepsStuck(db, t, a, i, group, n);
        } else if a.Parse? {
          ParseKeepsStuck(db, t, a, i, group, n);
        } else if a.Commit? {
          CommitKeepsStuck(db, t, a, i, group, n);
        } else {
          LeavingKeepsStuck(db, t, a, i, group, n);
        }
      }
  }

  lemma NothingStamped(at: map<nat, int>, now: int)
    ensures at + (map i | i in [] :: now) == at
  {
  }

  predicate NeverTrims(run: seq<Move>) { forall m :: m in run ==> !(m.Do? && m.step.Trim?) }

  /** Over every run of the group with its clock: a stuck entry is never acknowledged. */
  lemma {:induction false} StuckForever(db: Schema, t: Timed, run: seq<Move>, i: nat, group: set<nat>, n: nat)
    requires Stuck(db, t, i, group, n) && Timely(db, t, run)
    requires NeverTrims(run) || forall j :: j in group ==> i <= j
    ensures Stuck(db, Reached(db, t, run), i, group, n)
  {
    hide Possible, Perform, Stuck;
    if run != [] {
      var init, last := run[..|run| - 1], run[|run| - 1];
      assert run == init + [last] && last in run;
      StuckForever(db, t, init, i, group, n);
      StepKeepsStuck(db, Reached(db, t, init), last, i, group, n);
    }
  }

  // ----- What is not stuck can be acknowledged

  lemma FreshWorker(s: State) returns (w: nat)
    ensures w !in s.workers
  {
    w := Above(s.workers.Keys);
  }

  lemma {:induction false} Above(taken: set<nat>) returns (w: nat)
    ensures forall v :: v in taken ==> v < w
  {
    if taken == {} {
      w := 0;
    } else {
      var v :| v in taken;
      var u := Above(taken - {v});
      w := if u <= v then v + 1 else u;
      assert forall x :: x in taken ==> x == v || x in taken - {v};
    }
  }

  lemma LastStep(db: Schema, s: State, steps: seq<Action>)
    requires steps != [] && Legal(db, s, steps)
    ensures var init, last := steps[..|steps| - 1], steps[|steps| - 1];
      Legal(db, s, init) && Enabled(db, After(db, s, init), last)
      && After(db, s, steps) == Apply(db, After(db, s, init), last)
  {
    hide Enabled, Apply;
  }

  lemma LiftOne(db: Schema, t: Timed, run: seq<Move>, a: Action)
    requires Timely(db, t, run) && Enabled(db, Reached(db, t, run).s, a) && !a.Read? && !a.Claim?
    ensures Timely(db, t, run + [Do(a)])
    ensures Reached(db, t, run + [Do(a)]) == Reached(db, t, run).(s := Apply(db, Reached(db, t, run).s, a))
    ensures NeverTrims(run) && !a.Trim? ==> NeverTrims(run + [Do(a)])
  {
    hide Enabled, Apply, Timely, Reached;
    var u := Reached(db, t, run);
    NothingStamped(u.at, u.now);
    Move1(db, u, Do(a));
    Chain(db, t, run, [Do(a)]);
  }

  lemma Standing(db: Schema, t: Timed)
    ensures Timely(db, t, []) && Reached(db, t, []) == t && After(db, t.s, []) == t.s
  {
  }

  /** Steps that deliver nothing, as a timed run. */
  lemma {:induction false} Lift(db: Schema, t: Timed, steps: seq<Action>) returns (run: seq<Move>)
    requires Legal(db, t.s, steps) && forall a :: a in steps ==> !a.Read? && !a.Claim?
    ensures Timely(db, t, run) && Reached(db, t, run) == t.(s := After(db, t.s, steps))
    ensures (forall a :: a in steps ==> !a.Trim?) ==> NeverTrims(run)
  {
    hide Enabled, Apply, Legal, After, Timely, Reached;
    run := [];
    if steps == [] {
      Standing(db, t);
    } else {
      var init, last := steps[..|steps| - 1], steps[|steps| - 1];
      assert steps == init + [last] && last in steps;
      LastStep(db, t.s, steps);
      var before := Lift(db, t, init);
      LiftOne(db, t, before, last);
      run := before + [Do(last)];
    }
  }

  /** With at most a batch of pending entries, a reclaim takes all that are idle and deletes all that were trimmed. */
  lemma ClaimTakesAll(db: Schema, t: Timed)
    requires Inv(db, t.s) && |t.s.pel| <= BATCH_SIZE
    ensures forall j :: j in Claimable(t.s, Idle(t), t.s.next) <==> j in t.s.pel && j in Idle(t) && t.s.head <= j
    ensures forall j :: j in Gone(t.s) <==> j in t.s.pel && j < t.s.head
  {
    hide Claimable, Idle;
    var s, next := t.s, t.s.next;
    SubsetCount(PendingBelow(s, next), s.pel.Keys);
    forall j | j in s.pel ensures j < next && |PendingBelow(s, j)| < BATCH_SIZE {
      PendingIsDelivered(db, s, j);
      SubsetCount(PendingBelow(s, j) + {j}, s.pel.Keys);
    }
    forall j | j in s.pel && j in Idle(t) && s.head <= j ensures AmongFirst(s, Idle(t), j) {
      FewPending(s, Idle(t), next, j);
    }
  }

  lemma PendingIsDelivered(db: Schema, s: State, j: nat)
    requires Inv(db, s) && j in s.pel
    ensures j < s.next <= |s.log| && j !in s.acked
  {
  }

  lemma SameEntries(db: Schema, s: State, t: State, ids: set<nat>)
    requires s.table == t.table && s.log <= t.log && forall j :: j in ids ==> j < |s.log|
    ensures StorableTogether(db, s, ids) <==> StorableTogether(db, t, ids)
  {
    hide Decode, Schema.Accepts, Key, HasKey;
    assert forall j :: j in ids ==> t.log[j] == s.log[j];
  }

  /** If everything idle is storable together, a reclaim acknowledges all of it. */
  lemma ReclaimAcks(db: Schema, t: Timed, i: nat, ids: set<nat>) returns (run: seq<Move>)
    requires Inv(db, t.s) && |t.s.pel| <= BATCH_SIZE
    requires i in t.s.pel && i in Idle(t) && t.s.head <= i
    requires forall j :: j in t.s.pel && j in Idle(t) && t.s.head <= j ==> j in ids
    requires (forall j :: j in ids ==> j < |t.s.log|) && StorableTogether(db, t.s, ids)
    ensures Timely(db, t, run) && NeverTrims(run) && i in Reached(db, t, run).s.acked
  {
    hide Legal, After, Inv, Outcome, StorableTogether, Storable, Claimable, Gone, Idle, Apply, Timely, Reached,
        Parseable;
    ClaimTakesAll(db, t);
    var w := FreshWorker(t.s);
    var claim := ClaimAction(t.s, w, Idle(t), 0);
    var batch := claim.batch;
    ClaimActionEnabled(db, t.s, w, Idle(t), 0);
    ClaimEffect(db, t.s, claim);
    StepKeepsInv(db, t.s, claim);
    Move1(db, t, Do(claim));
    var u := Perform(db, t, Do(claim));
    assert i in batch;
    SameEntries(db, t.s, u.s, ids);
    SupersetStorable(db, u.s, ids, batch);
    var steps := ProcessingIsRun(db, u.s, w, batch, 0);
    BatchIsAllOrNothing(db, u.s, batch, 0);
    var rest := Lift(db, u, steps);
    Chain(db, t, [Do(claim)], rest);
    run := [Do(claim)] + rest;
  }

  // ----- Setting a group apart

  /** The state differs in nothing that matters to whether entries can be stored. */
  predicate SameStock(s: State, t: State) { t.log == s.log && t.head == s.head && t.table == s.table }

  /** All that was idle and in the stream is stamped anew, the rest keeps its stamps, and the trimmed entries are
      gone. */
  ghost predicate Restamped(t: Timed, u: Timed) {
    && u.now == t.now && SameStock(t.s, u.s)
    && (forall j :: j in u.s.pel <==> j in t.s.pel && t.s.head <= j)
    && (forall j :: j in u.s.pel ==> j in t.at && j in u.at && u.at[j] == if j in Idle(t) then t.now else t.at[j])
  }

  lemma ReclaimRestamps(db: Schema, t: Timed, claim: Action)
    requires Inv(db, t.s) && Stamped(t) && |t.s.pel| <= BATCH_SIZE && claim.Claim? && Possible(db, t, Do(claim))
    ensures Restamped(t, Perform(db, t, Do(claim)))
  {
    hide Inv, Claimable, Gone, Idle, Apply;
    ClaimTakesAll(db, t);
    ClaimEffect(db, t.s, claim);
  }

  /** A worker that reclaims and crashes. */
  lemma ClaimAndCrash(db: Schema, t: Timed) returns (run: seq<Move>)
    requires Inv(db, t.s) && Stamped(t) && |t.s.pel| <= BATCH_SIZE
    ensures Timely(db, t, run) && NeverTrims(run)
    ensures var u := Reached(db, t, run); Inv(db, u.s) && Stamped(u) && Restamped(t, u)
  {
    hide Inv, Claimable, Gone, Idle, Apply, Timely, Reached, Stamped, Restamped;
    var w := FreshWorker(t.s);
    var claim := ClaimAction(t.s, w, Idle(t), 0);
    ClaimActionEnabled(db, t.s, w, Idle(t), 0);
    ReclaimRestamps(db, t, claim);
    StepKeepsInv(db, t.s, claim);
    StepKeepsStamps(db, t, Do(claim));
    Move1(db, t, Do(claim));
    var u := Perform(db, t, Do(claim));
    run := [Do(claim)];
    ClaimEffect(db, t.s, claim);
    if claim.batch != [] {
      CrashEffect(db, t, u, w);
      StepKeepsInv(db, u.s, Crash(w));
      StepKeepsStamps(db, u, Do(Crash(w)));
      Move1(db, u, Do(Crash(w)));
      Chain(db, t, [Do(claim)], [Do(Crash(w))]);
      run := [Do(claim)] + [Do(Crash(w))];
    }
  }

  lemma CrashEffect(db: Schema, t: Timed, u: Timed, w: nat)
    requires w in u.s.workers && Restamped(t, u)
    ensures Possible(db, u, Do(Crash(w))) && Restamped(t, Perform(db, u, Do(Crash(w))))
  {
    NothingStamped(u.at, u.now);
  }

  lemma Wait(db: Schema, t: Timed, to: int)
    requires t.now <= to
    ensures Timely(db, t, [Tick(to)]) && Reached(db, t, [Tick(to)]) == t.(now := to) && NeverTrims([Tick(to)])
  {
    Move1(db, t, Tick(to));
  }

  /** An entry that is not idle yet is parted from everything with another stamp: a millisecond before it comes of age,
      what was delivered before it is reclaimed. */
  lemma SetApart(db: Schema, t: Timed, i: nat) returns (run: seq<Move>)
    requires Inv(db, t.s) && Stamped(t) && |t.s.pel| <= BATCH_SIZE
    requires i in t.s.pel && t.s.head <= i && t.now < t.at[i] + MIN_IDLE
    ensures Timely(db, t, run) && NeverTrims(run)
    ensures var u := Reached(db, t, run);
      && Inv(db, u.s) && SameStock(t.s, u.s) && i in u.s.pel && i in Idle(u)
      && (forall j :: j in u.s.pel ==> j in t.s.pel)
      && forall j :: j in u.s.pel && j in Idle(u) ==> t.s.head <= j && j in t.at && t.at[j] == t.at[i]
  {
    hide Inv, Timely, Reached, Perform, Possible;
    var before := t.at[i] + MIN_IDLE - 1;
    Wait(db, t, before);
    var waited := t.(now := before);
    var reclaim := ClaimAndCrash(db, waited);
    Chain(db, t, [Tick(before)], reclaim);
    var u := Reached(db, waited, reclaim);
    Wait(db, u, before + 1);
    Chain(db, t, [Tick(before)] + reclaim, [Tick(before + 1)]);
    run := [Tick(before)] + reclaim + [Tick(before + 1)];
  }

  // ----- Trimming what comes before

  function Adds(n: nat): (run: seq<Action>)
    ensures |run| == n && forall a :: a in run ==> a == Add(map[])
  {
    seq(n, _ => Add(map[]))
  }

  lemma {:induction false} AddsRun(db: Schema, s: State, n: nat)
    ensures Legal(db, s, Adds(n))
    ensures var t := After(db, s, Adds(n)); t == s.(log := t.log) && s.log <= t.log && |t.log| == |s.log| + n
  {
    if n > 0 {
      hide Legal, After;
      AddsRun(db, s, n - 1);
      One(db, After(db, s, Adds(n - 1)), Add(map[]));
      Compose(db, s, Adds(n - 1), [Add(map[])]);
      assert Adds(n) == Adds(n - 1) + [Add(map[])];
    } else {
      var _ := Nothing(db, s);
      assert Adds(0) == [];
    }
  }

  /** Enough new entries, and everything before a delivered entry is trimmed; nothing unread is. */
  lemma TrimUpTo(db: Schema, t: Timed, i: nat) returns (run: seq<Move>)
    requires t.s.head <= i < t.s.next
    ensures Timely(db, t, run)
    ensures var u := Reached(db, t, run);
      u == t.(s := t.s.(log := u.s.log, head := i)) && t.s.log <= u.s.log
  {
    hide Legal, After, Timely, Reached;
    AddsRun(db, t.s, i + STREAM_MAXLEN);
    var s := After(db, t.s, Adds(i + STREAM_MAXLEN));
    One(db, s, Trim(i - s.head));
    Compose(db, t.s, Adds(i + STREAM_MAXLEN), [Trim(i - s.head)]);
    assert s.dropped + Interval(s.next, s.next) == s.dropped;
    run := Lift(db, t, Adds(i + STREAM_MAXLEN) + [Trim(i - s.head)]);
  }

  // ----- The exact condition

  ghost predicate CanBeAcked(db: Schema, t: Timed, i: nat) {
    exists run :: Timely(db, t, run) && i in Reached(db, t, run).s.acked
  }

  ghost predicate CanBeAckedUntrimmed(db: Schema, t: Timed, i: nat) {
    exists run :: Timely(db, t, run) && NeverTrims(run) && i in Reached(db, t, run).s.acked
  }

  /** A parseable entry waits in a pending list of at most one batch, and no worker holds it or a companion. */
  ghost predicate Abandoned(db: Schema, t: Timed, i: nat) {
    && Inv(db, t.s) && Stamped(t) && |t.s.pel| <= BATCH_SIZE
    && i in t.s.pel && t.s.head <= i && Parseable(t.s.log, i)
    && forall j :: j in Companions(t, i, t.s.head) ==> Unheld(t.s, j)
  }

  lemma CompanionsBlock(db: Schema, t: Timed, i: nat, low: nat, run: seq<Move>)
    requires Abandoned(db, t, i) && t.s.head <= low <= i && !StorableTogether(db, t.s, Companions(t, i, low))
    requires Timely(db, t, run) && (NeverTrims(run) || low == i)
    ensures i !in Reached(db, t, run).s.acked
  {
    hide Timely, Reached;
    var group := set j | j in Companions(t, i, low) && Parseable(t.s.log, j);
    GroupIsStuck(db, t, i, low, group);
    StuckForever(db, t, run, i, group, t.s.next);
  }

  lemma GroupIsStuck(db: Schema, t: Timed, i: nat, low: nat, group: set<nat>)
    requires Abandoned(db, t, i) && t.s.head <= low <= i && !StorableTogether(db, t.s, Companions(t, i, low))
    requires group == set j | j in Companions(t, i, low) && Parseable(t.s.log, j)
    ensures Stuck(db, t, i, group, t.s.next)
  {
    hide Inv, Decode, StorableTogether;
    OthersDoNotMatter(db, t.s, Companions(t, i, low), group);
    SubsetCount(PendingBelow(t.s, t.s.next), t.s.pel.Keys);
    forall j | j in t.s.pel ensures j < t.s.next <= |t.s.log| && j !in t.s.acked { PendingIsDelivered(db, t.s, j); }
    forall w, j | w in t.s.workers && j in group ensures j !in Held(t.s.workers[w]) { assert Unheld(t.s, j); }
    assert i in group && Bound(t, i, group);
  }

  /** Only parseable entries matter to whether a set can be stored. */
  lemma OthersDoNotMatter(db: Schema, s: State, ids: set<nat>, group: set<nat>)
    requires group == set j | j in ids && Parseable(s.log, j)
    ensures StorableTogether(db, s, ids) <==> StorableTogether(db, s, group)
  {
    hide Decode, Key, HasKey, Schema.Accepts;
  }

  /** Companions that are storable together can be claimed together and by themselves. */
  lemma CompanionsRescue(db: Schema, t: Timed, i: nat) returns (run: seq<Move>)
    requires Abandoned(db, t, i) && StorableTogether(db, t.s, Companions(t, i, t.s.head))
    ensures Timely(db, t, run) && NeverTrims(run) && i in Reached(db, t, run).s.acked
  {
    hide Inv, Timely, Reached, StorableTogether, Parseable, Unheld;
    var ids := Companions(t, i, t.s.head);
    forall j | j in ids ensures j < |t.s.log| { PendingIsDelivered(db, t.s, j); }
    if i in Idle(t) {
      run := ReclaimAcks(db, t, i, ids);
    } else {
      var apart := SetApart(db, t, i);
      var u := Reached(db, t, apart);
      SameEntries(db, t.s, u.s, ids);
      FewerKeys(u.s.pel, t.s.pel);
      var rest := ReclaimAcks(db, u, i, ids);
      Chain(db, t, apart, rest);
      run := apart + rest;
    }
  }

  lemma FewerKeys(a: map<nat, nat>, b: map<nat, nat>)
    requires a.Keys <= b.Keys
    ensures |a| <= |b|
  {
    SubsetCount(a.Keys, b.Keys);
  }

  /** The exact condition of recovery over all runs in which nothing is trimmed, of any number of workers, with crashes:
      an abandoned entry can be acknowledged if and only if it is storable together with its companions. */
  lemma RecoverableUntrimmed(db: Schema, t: Timed, i: nat)
    requires Abandoned(db, t, i)
    ensures CanBeAckedUntrimmed(db, t, i) <==> StorableTogether(db, t.s, Companions(t, i, t.s.head))
  {
    hide Abandoned, Timely, Reached, StorableTogether, Companions;
    assert t.s.head <= i by { AbandonedIsLive(db, t, i); }
    if CanBeAckedUntrimmed(db, t, i) && !StorableTogether(db, t.s, Companions(t, i, t.s.head)) {
      var run :| Timely(db, t, run) && NeverTrims(run) && i in Reached(db, t, run).s.acked;
      CompanionsBlock(db, t, i, t.s.head, run);
      assert false;
    }
    if StorableTogether(db, t.s, Companions(t, i, t.s.head)) {
      var run := CompanionsRescue(db, t, i);
    }
  }

  lemma AbandonedIsLive(db: Schema, t: Timed, i: nat)
    requires Abandoned(db, t, i)
    ensures t.s.head <= i < t.s.next <= |t.s.log| && Inv(db, t.s)
  {
    PendingIsDelivered(db, t.s, i);
  }

  /** After trimming up to the entry it is abandoned still, with the companions from itself on. */
  lemma TrimmedIsAbandoned(db: Schema, t: Timed, u: Timed, i: nat)
    requires Abandoned(db, t, i) && Inv(db, u.s)
    requires u == t.(s := t.s.(log := u.s.log, head := i)) && t.s.log <= u.s.log
    ensures Abandoned(db, u, i) && Companions(u, i, i) == Companions(t, i, i)
  {
    hide Inv, Decode;
    AbandonedIsLive(db, t, i);
    assert u.s.log[i] == t.s.log[i];
    forall j | j in Companions(u, i, i) ensures Unheld(u.s, j) { assert j in Companions(t, i, t.s.head); }
  }

  /** Over all runs whatsoever the condition is weaker by as much as trimming can do: companions before the entry may be
      trimmed out of its way, those from it on may not. */
  lemma RecoverableExactly(db: Schema, t: Timed, i: nat)
    requires Abandoned(db, t, i)
    ensures CanBeAcked(db, t, i) <==> StorableTogether(db, t.s, Companions(t, i, i))
  {
    hide Abandoned, Timely, Reached, StorableTogether, Companions, Inv;
    AbandonedIsLive(db, t, i);
    if CanBeAcked(db, t, i) && !StorableTogether(db, t.s, Companions(t, i, i)) {
      var run :| Timely(db, t, run) && i in Reached(db, t, run).s.acked;
      CompanionsBlock(db, t, i, i, run);
      assert false;
    }
    if StorableTogether(db, t.s, Companions(t, i, i)) {
      var run := TrimUpTo(db, t, i);
      var u := Reached(db, t, run);
      TimedKeepsInv(db, t, run);
      TrimmedIsAbandoned(db, t, u, i);
      CompanionsAreEntries(db, t, i);
      SameEntries(db, t.s, u.s, Companions(t, i, i));
      var rest := CompanionsRescue(db, u, i);
      Chain(db, t, run, rest);
      assert Timely(db, t, run + rest) && i in Reached(db, t, run + rest).s.acked;
    }
  }

  lemma CompanionsAreEntries(db: Schema, t: Timed, i: nat)
    requires Inv(db, t.s)
    ensures forall j :: j in Companions(t, i, i) ==> j < |t.s.log|
  {
    hide Inv;
    forall j | j in Companions(t, i, i) ensures j < |t.s.log| { PendingIsDelivered(db, t.s, j); }
  }

  // ----- An innocent reading

  const START: Timed := Timed(INIT, 0, map[])

  /** Two entries are in the stream, pending for nobody that lives, and were delivered together. */
  predicate LeftBehind(t: Timed, first: Fields, second: Fields) {
    && t.s.log == [first, second] && t.s.head == 0 && t.s.next == 2 && t.s.pel.Keys == {0, 1} && t.s.acked == {}
    && t.s.table == [] && t.s.workers == map[] && t.at == map[0 := 0, 1 := 0] && t.now == 0
  }

  lemma AddTwo(db: Schema, first: Fields, second: Fields) returns (run: seq<Move>)
    ensures Timely(db, START, run) && Reached(db, START, run) == START.(s := INIT.(log := [first, second]))
  {
    hide Legal, After, Timely, Reached;
    One(db, INIT, Add(first));
    assert INIT.log + [first] == [first] && [first] + [second] == [first, second];
    One(db, INIT.(log := [first]), Add(second));
    Compose(db, INIT, [Add(first)], [Add(second)]);
    run := Lift(db, START, [Add(first)] + [Add(second)]);
  }

  lemma ReadTwo(db: Schema, first: Fields, second: Fields)
    ensures var t := START.(s := INIT.(log := [first, second]));
      && Possible(db, t, Do(Read(0, 0)))
      && Perform(db, t, Do(Read(0, 0)))
        == Timed(t.s.(next := 2, pel := map[0 := 0, 1 := 0], workers := map[0 := Parsing([0, 1], 0, 0)]), 0,
                 map[0 := 0, 1 := 0])
  {
    hide Range, Owned;
    var s := INIT.(log := [first, second]);
    TwoEntries();
    NoneElse(s.pel, s.workers);
    StampTwo(START.at);
  }

  lemma TwoEntries()
    ensures Range(0, 2) == [0, 1]
  {
  }

  lemma NoneElse(pel: map<nat, nat>, workers: map<nat, Phase>)
    requires pel == map[] && workers == map[]
    ensures pel + Owned([0, 1], 0) == map[0 := 0, 1 := 0]
    ensures workers[0 := Parsing([0, 1], 0, 0)] == map[0 := Parsing([0, 1], 0, 0)]
  {
  }

  lemma StampTwo(at: map<nat, int>)
    requires at == map[]
    ensures at + (map i | i in [0, 1] :: 0) == map[0 := 0, 1 := 0]
  {
  }

  lemma FailedCopy(db: Schema, s: State)
    requires s.pel == map[0 := 0, 1 := 0] && s.workers == map[0 := Parsing([0, 1], 0, 0)] && s.acked == {}
    requires Parseable(s.log, 0) && Parseable(s.log, 1) && !db.Accepts(Decode(s.log[1]).value)
    ensures var t := Leave(Outcome(db, s, [0, 1], 0).0, 0); t == s.(workers := map[])
  {
    hide Schema.Accepts, Decode;
    assert UnparseableIn(s.log, [0, 1]) == {};
    assert Acknowledge(s, {}) == s;
    assert 1 in [0, 1];
    assert 0 in [0, 1] && 0 in ParseableIn(s.log, [0, 1]);
    assert s.workers - {0} == map[];
  }

  /** Two readings arrive, the first in order, the second one that the table refuses, and one XREADGROUP delivers
      both. */
  lemma DeliveredTogether(db: Schema, first: Fields, second: Fields) returns (run: seq<Move>)
    requires Decode(first).Some? && Decode(second).Some? && !db.Accepts(Decode(second).value)
    ensures Timely(db, START, run) && LeftBehind(Reached(db, START, run), first, second)
  {
    hide Legal, After, Timely, Reached, Schema.Accepts, Decode, Outcome, Possible, Perform;
    run := AddTwo(db, first, second);
    var added := Reached(db, START, run);
    ReadTwo(db, first, second);
    Move1(db, added, Do(Read(0, 0)));
    Chain(db, START, run, [Do(Read(0, 0))]);
    run := run + [Do(Read(0, 0))];
    var read := Reached(db, START, run);
    var steps := ProcessingIsRun(db, read.s, 0, [0, 1], 0);
    FailedCopy(db, read.s);
    var rest := Lift(db, read, steps);
    Chain(db, START, run, rest);
    run := run + rest;
  }

  lemma LeftBehindIsStuck(db: Schema, t: Timed, first: Fields, second: Fields)
    requires LeftBehind(t, first, second) && Inv(db, t.s)
    requires Decode(first).Some? && Decode(second).Some? && !db.Accepts(Decode(second).value)
    ensures Abandoned(db, t, 0) && !StorableTogether(db, t.s, Companions(t, 0, 0))
  {
    hide Inv, Schema.Accepts, Decode;
    assert |t.s.pel| == |t.s.pel.Keys|;
    assert Parseable(t.s.log, 1) && 1 in Companions(t, 0, 0);
  }

  /** The third way to be lost: a reading that the table would take is never acknowledged, because the same read
      delivered a reading that it refuses. */
  lemma InnocentReadingIsLost(db: Schema, first: Fields, second: Fields) returns (run: seq<Move>)
    requires Decode(first).Some? && db.Accepts(Decode(first).value)
    requires Decode(second).Some? && !db.Accepts(Decode(second).value)
    ensures Timely(db, START, run)
    ensures var t := Reached(db, START, run);
      && t.s.log == [first, second] && 0 in t.s.pel && t.s.table == [] && t.s.workers == map[] && !CanBeAcked(db, t, 0)
  {
    hide Timely, Reached, Schema.Accepts, Decode, Abandoned, CanBeAcked, StorableTogether, Companions, Inv;
    run := DeliveredTogether(db, first, second);
    assert Inv(db, START.s) by { EmptyStart(db); }
    TimedKeepsInv(db, START, run);
    var t := Reached(db, START, run);
    LeftBehindIsStuck(db, t, first, second);
    RecoverableExactly(db, t, 0);
  }

  lemma EmptyStart(db: Schema)
    ensures Inv(db, START.s)
  {
  }
}
