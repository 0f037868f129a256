/** Processing whole readings: the loop over a device's rules, and how often alerts can be raised. */
module AlertService {
  import opened Alerts

  predicate Breach(rule: Rule, telemetry: map<string, real>)
    requires rule.metric in telemetry
  {
    EvaluateCondition(telemetry[rule.metric], rule.condition, rule.threshold)
  }

  /** One turn of the loop: a metric the reading does not carry leaves the rule alone. */
  function Turn(s: State, device: nat, telemetry: map<string, real>, rule: Rule, newId: nat): State {
    if rule.metric in telemetry then EvaluateRule(s, (device, rule.id), Breach(rule, telemetry), newId) else s
  }

  function EvaluateRules(s: State, device: nat, telemetry: map<string, real>, rules: seq<Rule>, newIds: seq<nat>): State
    requires |newIds| == |rules|
  {
    if rules == [] then s
    else
      var n := |rules| - 1;
      Turn(EvaluateRules(s, device, telemetry, rules[..n], newIds[..n]), device, telemetry, rules[n], newIds[n])
  }

  lemma OneMoreRule(s: State, device: nat, telemetry: map<string, real>, rules: seq<Rule>, newIds: seq<nat>, n: nat)
    requires |newIds| == |rules| && n < |rules|
    ensures EvaluateRules(s, device, telemetry, rules[..n + 1], newIds[..n + 1])
      == Turn(EvaluateRules(s, device, telemetry, rules[..n], newIds[..n]), device, telemetry, rules[n], newIds[n])
  {
    hide Turn;
    assert rules[..n + 1][..n] == rules[..n] && newIds[..n + 1][..n] == newIds[..n];
  }

  predicate DistinctRules(rules: seq<Rule>) {
    forall j, k :: 0 <= j < k < |rules| ==> rules[j].id != rules[k].id
  }

  /** Identifiers as uuid4 makes them: new, and never the same twice. */
  predicate NewIds(s: State, newIds: seq<nat>) {
    && (forall k :: 0 <= k < |newIds| ==> newIds[k] !in s.rows)
    && (forall j, k :: 0 <= j < k < |newIds| ==> newIds[j] != newIds[k])
  }

  /** After a reading, a rule it carries the metric of has its key set exactly when the reading breached the rule;
      every other pair's key is what it was. */
  lemma {:induction false} ReadingDecidesKeys(
    s: State, device: nat, telemetry: map<string, real>, rules: seq<Rule>, newIds: seq<nat>, p: Pair)
    requires |newIds| == |rules| && DistinctRules(rules)
    ensures var t := EvaluateRules(s, device, telemetry, rules, newIds);
      && (forall k :: 0 <= k < |rules| && rules[k].metric in telemetry && p == (device, rules[k].id) ==>
            (p in t.keys <==> Breach(rules[k], telemetry)))
      && ((forall k :: 0 <= k < |rules| && rules[k].metric in telemetry ==> p != (device, rules[k].id)) ==>
            KeyOf(t, p) == KeyOf(s, p))
  {
    hide EvaluateCondition;
    if rules != [] {
      var n := |rules| - 1;
      ReadingDecidesKeys(s, device, telemetry, rules[..n], newIds[..n], p);
      assert forall k :: 0 <= k < n ==> rules[..n][k] == rules[k];
    }
  }

  lemma {:induction false} RowsAfterRules(
    s: State, device: nat, telemetry: map<string, real>, rules: seq<Rule>, newIds: seq<nat>, id: nat)
    requires |newIds| == |rules| && id !in s.rows && id !in newIds
    ensures id !in EvaluateRules(s, device, telemetry, rules, newIds).rows
    ensures EvaluateRules(s, device, telemetry, rules, newIds).stage == s.stage
  {
    hide EvaluateCondition;
    if rules != [] {
      var n := |rules| - 1;
      assert newIds[n] in newIds;
      RowsAfterRules(s, device, telemetry, rules[..n], newIds[..n], id);
    }
  }

  lemma Compose(s: State, first: seq<Action>, second: seq<Action>)
    requires Legal(s, first) && Legal(After(s, first), second)
    ensures Legal(s, first + second) && After(s, first + second) == After(After(s, first), second)
    decreases |second|
  {
    hide Enabled, Apply;
    if second == [] {
      assert first + second == first;
    } else {
      var init := second[..|second| - 1];
      Compose(s, first, init);
      assert (first + second)[..|first + second| - 1] == first + init;
    }
  }

  /** Processing a reading is a legal run of the evaluator without faults, so everything proved of runs holds of it. */
  lemma {:induction false} ReadingIsRun(
      s: State, device: nat, telemetry: map<string, real>, rules: seq<Rule>, newIds: seq<nat>)
    requires |newIds| == |rules| && s.stage.Idle? && NewIds(s, newIds)
    ensures exists run ::
      && Legal(s, run) && (forall a :: a in run ==> Faultless(a))
      && After(s, run) == EvaluateRules(s, device, telemetry, rules, newIds)
  {
    hide Legal, After, EvaluateCondition, EvaluateRule, Enabled, Apply;
    if rules == [] {
      EmptyRun(s);
      assert forall a: Action :: a in [] ==> Faultless(a);
    } else {
      var n := |rules| - 1;
      ReadingIsRun(s, device, telemetry, rules[..n], newIds[..n]);
      var t := EvaluateRules(s, device, telemetry, rules[..n], newIds[..n]);
      var run :| Legal(s, run) && (forall a :: a in run ==> Faultless(a)) && After(s, run) == t;
      if rules[n].metric in telemetry {
        var p, breach := (device, rules[n].id), Breach(rules[n], telemetry);
        RowsAfterRules(s, device, telemetry, rules[..n], newIds[..n], newIds[n]);
        RuleIsRun(t, p, breach, newIds[n]);
        Compose(s, run, RuleRun(t, p, breach, newIds[n]));
        assert forall a :: a in run + RuleRun(t, p, breach, newIds[n]) ==> Faultless(a);
      }
    }
  }

  lemma EmptyRun(s: State)
    ensures Legal(s, []) && After(s, []) == s
  {
  }

  function TriggeredIn(events: seq<Event>): seq<Event> {
    if events == [] then []
    else
      TriggeredIn(events[..|events| - 1]) + (if events[|events| - 1].Triggered? then [events[|events| - 1]] else [])
  }

  /** Seconds for which the rules of a device are cached. */
  const CACHE_LIFE: int := 60

  /** Rules as they were queried at some time, in seconds. */
  datatype Cached = Cached(rules: seq<Rule>, at: int)

  /** The rules that the database holds for a device at a time. */
  type Rulebook = (nat, int) -> seq<Rule>

  /** The first n identifiers that uuid4 makes. */
  function Ids(uuid: nat -> nat, n: nat): (ids: seq<nat>)
    ensures |ids| == n
  {
    seq(n, (k: nat) => uuid(k))
  }

  /** The evaluator's shared state. */
  class Evaluator {
    var cache: map<nat, Cached>
    var keys: map<Pair, nat>
    var rows: map<nat, AlertRow>
    var events: seq<Event>
    ghost var breached: map<Pair, bool>

    constructor ()
      ensures View() == INIT && cache == map[]
    {
      cache, keys, rows, events, breached := map[], map[], map[], [], map[];
    }

    ghost function View(): State
      reads this
    {
      State(keys, rows, events, breached, Idle)
    }

    /** Cached rules are those of the time at which they were queried, and that is past. */
    ghost predicate CacheSound(database: Rulebook, now: int)
      reads this
    {
      forall d :: d in cache ==> cache[d].rules == database(d, cache[d].at) && cache[d].at <= now
    }

    /** The rules of the device, from the cache or else from the database: those of some moment in the last minute. */
    method FetchRules(device: nat, database: Rulebook, now: int) returns (rules: seq<Rule>, ghost at: int)
      requires CacheSound(database, now)
      modifies this`cache
      ensures CacheSound(database, now)
      ensures now - CACHE_LIFE < at <= now && rules == database(device, at)
    {
      if device in cache && now < cache[device].at + CACHE_LIFE {
        return cache[device].rules, cache[device].at;
      }
      rules, at := database(device, now), now;
      cache := cache[device := Cached(rules, now)];
    }

    /** `process_reading_alerts`: the reading is judged by the device's rules of some moment within the last minute. */
    method ProcessReadingAlerts(
      device: nat, telemetry: map<string, real>, database: Rulebook, uuid: nat -> nat, now: int)
      returns (triggeredEvents: seq<Event>, ghost at: int)
      requires CacheSound(database, now)
      modifies this
      ensures CacheSound(database, now) && now - 60 < at <= now
      ensures View()
        == EvaluateRules(old(View()), device, telemetry, database(device, at), Ids(uuid, |database(device, at)|))
      ensures old(events) <= events
      ensures triggeredEvents == TriggeredIn(events[|old(events)|..])
    {
      var rules: seq<Rule>;
      rules, at := FetchRules(device, database, now);
      triggeredEvents := ApplyRules(device, telemetry, rules, Ids(uuid, |rules|));
    }

    /** The loop over the rules. */
    method ApplyRules(device: nat, telemetry: map<string, real>, rules: seq<Rule>, newIds: seq<nat>)
      returns (triggeredEvents: seq<Event>)
      requires |newIds| == |rules|
      modifies this`keys, this`rows, this`events, this`breached
      ensures View() == EvaluateRules(old(View()), device, telemetry, rules, newIds)
      ensures old(events) <= events
      ensures triggeredEvents == TriggeredIn(events[|old(events)|..])
    {
      triggeredEvents := [];
      for n := 0 to |rules|
        invariant View() == EvaluateRules(old(View()), device, telemetry, rules[..n], newIds[..n])
        invariant old(events) <= events
        invariant triggeredEvents == TriggeredIn(events[|old(events)|..])
      {
        hide EvaluateCondition, TriggeredIn, EvaluateRules;
        OneMoreRule(old(View()), device, telemetry, rules, newIds, n);
        ghost var before := View();
        var rule := rules[n];
        if rule.metric in telemetry {
          var metricVal := telemetry[rule.metric];
          var breach := EvaluateCondition(metricVal, rule.condition, rule.threshold);
          var activeKey := (device, rule.id);
          breached := breached[activeKey := breach];
          if breach && activeKey !in keys {
            rows := rows[newIds[n] := AlertRow(activeKey, ACTIVE)];
            keys := keys[activeKey := newIds[n]];
            Publish(Triggered(activeKey, newIds[n]), |old(events)|);
            triggeredEvents := triggeredEvents + [Triggered(activeKey, newIds[n])];
          } else if !breach && activeKey in keys {
            var id := keys[activeKey];
            if id in rows && rows[id].status == ACTIVE { rows := rows[id := rows[id].(status := RESOLVED)]; }
            keys := keys - {activeKey};
            Publish(Resolved(activeKey, id), |old(events)|);
          }
        }
        assert View() == Turn(before, device, telemetry, rule, newIds[n]);
      }
      assert rules[..|rules|] == rules && newIds[..|rules|] == newIds;
    }

    method Publish(e: Event, ghost start: nat)
      requires start <= |events|
      modifies this`events
      ensures events == old(events) + [e]
      ensures TriggeredIn(events[start..]) == TriggeredIn(old(events)[start..]) + if e.Triggered? then [e] else []
    {
      events := events + [e];
      assert events[start..][..|events[start..]| - 1] == old(events)[start..];
    }
  }

  // ----- How often an unbroken breach can raise alerts when keys expire

  const KEY_LIFE: int := 86400

  /** The alert machine with a clock, in seconds, and the time at which the key of each pair runs out. */
  datatype Timed = Timed(alerts: State, now: int, expiry: map<Pair, int>)

  datatype Move = Advance(to: int) | Drop(pair: Pair) | Do(step: Action)

  predicate Overdue(t: Timed, p: Pair) { p in t.alerts.keys && p in t.expiry && t.expiry[p] <= t.now }

  /** No reading finds a key whose time is up: Redis drops it before it answers. */
  predicate Possible(t: Timed, m: Move) {
    match m
    case Advance(to) => t.now <= to
    case Drop(p) => Overdue(t, p)
    case Do(a) => Faultless(a) && Enabled(t.alerts, a) && (a.Evaluate? ==> !Overdue(t, a.pair))
  }

  /** The key is written with a life of a day when the evaluator sets it, and at no other time. */
  function Perform(t: Timed, m: Move): Timed
    requires Possible(t, m)
  {
    match m
    case Advance(to) => t.(now := to)
    case Drop(p) => t.(alerts := Apply(t.alerts, Expire(p)))
    case Do(a) =>
      var sets := a.Continue? && t.alerts.stage.Inserted?;
      t.(alerts := Apply(t.alerts, a),
         expiry := if sets then t.expiry[t.alerts.stage.pair := t.now + KEY_LIFE] else t.expiry)
  }

  predicate Timely(t: Timed, run: seq<Move>)
    decreases |run|, 0
  {
    run == [] ||
    (Timely(t, run[..|run| - 1]) && Possible(Reached(t, run[..|run| - 1]), run[|run| - 1]))
  }

  function Reached(t: Timed, run: seq<Move>): Timed
    requires Timely(t, run)
    decreases |run|, 1
  {
    if run == [] then t else Perform(Reached(t, run[..|run| - 1]), run[|run| - 1])
  }

  /** Apart from its clock, a timed run is a legal run of the alert machine, so its events are the machine's. */
  lemma {:induction false} TimedIsRun(t: Timed, run: seq<Move>)
    requires Timely(t, run)
    ensures exists steps :: Legal(t.alerts, steps) && After(t.alerts, steps) == Reached(t, run).alerts
  {
    hide Legal, After, Apply;
    if run == [] {
      EmptyRun(t.alerts);
    } else {
      var init, last := run[..|run| - 1], run[|run| - 1];
      TimedIsRun(t, init);
      var steps :| Legal(t.alerts, steps) && After(t.alerts, steps) == Reached(t, init).alerts;
      if !last.Advance? {
        var a := if last.Drop? then Expire(last.pair) else last.step;
        Extend(t.alerts, steps, a);
        assert Legal(t.alerts, steps + [a]);
      }
    }
  }

  predicate Evaluates(m: Move, p: Pair) { m.Do? && m.step.Evaluate? && m.step.pair == p }

  /** Every reading of the pair in the run breaches. */
  predicate Unbroken(run: seq<Move>, p: Pair) {
    forall m :: m in run && Evaluates(m, p) ==> m.step.breach
  }

  /** When the readings of the pair were evaluated. */
  function Times(t: Timed, run: seq<Move>, p: Pair): seq<int>
    requires Timely(t, run)
  {
    if run == [] then []
    else
      var init := run[..|run| - 1];
      Times(t, init, p) + if Evaluates(run[|run| - 1], p) then [Reached(t, init).now] else []
  }

  /** The number of alert.triggered events of the pair. */
  function Triggers(events: seq<Event>, p: Pair): nat {
    if events == [] then 0
    else
      Triggers(events[..|events| - 1], p)
      + if events[|events| - 1].Triggered? && events[|events| - 1].pair == p then 1 else 0
  }

  /** Alerts of the pair announced so far, counting one that is being announced. */
  function Raised(s: State, p: Pair): nat {
    Triggers(s.events, p) + if (s.stage.Inserted? || s.stage.Announcing?) && s.stage.pair == p then 1 else 0
  }

  /** After `count` alerts within readings from `first` to `last`. */
  predicate Paced(t: Timed, p: Pair, count: int, times: seq<int>) {
    && (t.alerts.stage.Idle? || t.alerts.stage.pair != p
        || (t.alerts.stage.Inserted? && p !in t.alerts.keys) || t.alerts.stage.Announcing?)
    && (times == [] ==> count == 0 && p !in t.alerts.keys && (t.alerts.stage.Idle? || t.alerts.stage.pair != p))
    && (times != [] ==>
          var first, last := times[0], times[|times| - 1];
          && count >= 1 && first + (count - 1) * KEY_LIFE <= last <= t.now
          && (!(t.alerts.stage.Inserted? && t.alerts.stage.pair == p) ==>
                && p in t.expiry && first + count * KEY_LIFE <= t.expiry[p]
                && (p !in t.alerts.keys ==> t.expiry[p] <= t.now)))
  }

  lemma OneMoreEvent(events: seq<Event>, e: Event, p: Pair)
    ensures Triggers(events + [e], p) == Triggers(events, p) + if e.Triggered? && e.pair == p then 1 else 0
  {
    assert (events + [e])[..|events|] == events;
  }

  lemma PacedStep(t: Timed, m: Move, p: Pair, base: int, times: seq<int>)
    requires Possible(t, m) && Paced(t, p, Raised(t.alerts, p) - base, times)
    requires Evaluates(m, p) ==> m.step.breach
    ensures var t' := Perform(t, m);
      Paced(t', p, Raised(t'.alerts, p) - base, times + if Evaluates(m, p) then [t.now] else [])
  {
    hide Perform, Paced, Raised, Apply;
    if m.Do? && m.step.Evaluate? {
      PacedEvaluate(t, m.step, p, base, times);
    } else {
      assert times + [] == times;
      if m == Do(Continue) { PacedContinue(t, p, base, times); } else { PacedOtherwise(t, m, p, base, times); }
    }
  }

  /** The passing of time, the end of a key's life and the API raise nothing. */
  lemma PacedOtherwise(t: Timed, m: Move, p: Pair, base: int, times: seq<int>)
    requires Possible(t, m) && Paced(t, p, Raised(t.alerts, p) - base, times)
    requires m.Do? ==> FromApi(m.step)
    ensures var t' := Perform(t, m); Paced(t', p, Raised(t'.alerts, p) - base, times)
  {
    hide Triggers;
  }

  lemma PacedEvaluate(t: Timed, a: Action, p: Pair, base: int, times: seq<int>)
    requires a.Evaluate? && Possible(t, Do(a)) && Paced(t, p, Raised(t.alerts, p) - base, times)
    requires Evaluates(Do(a), p) ==> a.breach
    ensures var t' := Perform(t, Do(a));
      Paced(t', p, Raised(t'.alerts, p) - base, times + if Evaluates(Do(a), p) then [t.now] else [])
  {
    hide Triggers;
  }

  lemma PacedContinue(t: Timed, p: Pair, base: int, times: seq<int>)
    requires Possible(t, Do(Continue)) && Paced(t, p, Raised(t.alerts, p) - base, times)
    ensures var t' := Perform(t, Do(Continue)); Paced(t', p, Raised(t'.alerts, p) - base, times)
  {
    hide Triggers;
    var s := t.alerts;
    OneMoreEvent(s.events, Triggered(s.stage.pair, s.stage.id), p);
    OneMoreEvent(s.events, Resolved(s.stage.pair, s.stage.id), p);
  }

  lemma {:induction false} RunIsPaced(t: Timed, run: seq<Move>, p: Pair)
    requires Timely(t, run) && Unbroken(run, p) && t.alerts.stage.Idle? && p !in t.alerts.keys
    ensures Paced(Reached(t, run), p, Raised(Reached(t, run).alerts, p) - Raised(t.alerts, p), Times(t, run, p))
  {
    hide Possible, Perform, Raised, Evaluates;
    if run != [] {
      hide Paced;
      var init, last := run[..|run| - 1], run[|run| - 1];
      assert run == init + [last] && last in run;
      RunIsPaced(t, init, p);
      PacedStep(Reached(t, init), last, p, Raised(t.alerts, p), Times(t, init, p));
    }
  }

  /** In every run of the machine with key expiry, a breach that lasts T seconds without a break, counted from its first
      evaluation to its last, raises at most floor(T / 86400) + 1 alerts, whatever other pairs and the API do. */
  lemma AlertRate(t: Timed, run: seq<Move>, p: Pair)
    requires Timely(t, run) && Unbroken(run, p) && t.alerts.stage.Idle? && p !in t.alerts.keys
    ensures var times := Times(t, run, p);
      Triggers(Reached(t, run).alerts.events, p) - Triggers(t.alerts.events, p)
      <= if times == [] then 0 else (times[|times| - 1] - times[0]) / 86400 + 1
  {
    hide Timely, Reached, Times, Triggers;
    RunIsPaced(t, run, p);
    var times := Times(t, run, p);
    var count := Raised(Reached(t, run).alerts, p) - Raised(t.alerts, p);
    if times != [] { assert count - 1 <= (times[|times| - 1] - times[0]) / KEY_LIFE; }
  }

  // ----- The rate is attained

  /** One reading per key life, each evaluated as soon as the old key is gone. */
  function Daily(n: nat, p: Pair): seq<Move> {
    if n == 0 then []
    else Daily(n - 1, p) + [Advance((n - 1) * KEY_LIFE)] + (if n == 1 then [] else [Drop(p)]) + Alarm(p, n - 1)
  }

  function Alarm(p: Pair, id: nat): seq<Move> {
    [Do(Evaluate(p, true, id))] + [Do(Continue)] + [Do(Continue)]
  }

  const START: Timed := Timed(INIT, 0, map[])

  lemma Then(t: Timed, run: seq<Move>, m: Move)
    requires Timely(t, run) && Possible(Reached(t, run), m)
    ensures Timely(t, run + [m]) && Reached(t, run + [m]) == Perform(Reached(t, run), m)
    ensures forall p ::
      Times(t, run + [m], p) == Times(t, run, p) + if Evaluates(m, p) then [Reached(t, run).now] else []
  {
    hide Possible, Perform;
    assert (run + [m])[..|run|] == run;
  }

  lemma AlarmRaises(t: Timed, run: seq<Move>, p: Pair, id: nat)
    requires Timely(t, run)
    requires var u := Reached(t, run); u.alerts.stage.Idle? && p !in u.alerts.keys && id !in u.alerts.rows
    ensures Timely(t, run + Alarm(p, id))
    ensures var u, v := Reached(t, run), Reached(t, run + Alarm(p, id));
      && v.now == u.now && v.expiry == u.expiry[p := u.now + KEY_LIFE]
      && v.alerts.stage.Idle? && v.alerts.keys == u.alerts.keys[p := id]
      && v.alerts.rows.Keys == u.alerts.rows.Keys + {id}
      && Triggers(v.alerts.events, p) == Triggers(u.alerts.events, p) + 1
      && Times(t, run + Alarm(p, id), p) == Times(t, run, p) + [u.now]
  {
    hide Timely, Reached, Triggers, Times;
    var a, b, c := Do(Evaluate(p, true, id)), Do(Continue), Do(Continue);
    Then(t, run, a);
    Then(t, run + [a], b);
    Then(t, run + [a] + [b], c);
    assert run + Alarm(p, id) == run + [a] + [b] + [c];
    OneMoreEvent(Reached(t, run).alerts.events, Triggered(p, id), p);
  }

  /** n alerts of the pair, a day apart, the last of them still active. */
  predicate OnSchedule(t: Timed, times: seq<int>, n: nat, p: Pair)
    requires n > 0
  {
    && Triggers(t.alerts.events, p) == n == |times| && times[n - 1] == (n - 1) * KEY_LIFE && times[0] == 0
    && t.now == (n - 1) * KEY_LIFE && t.alerts.stage.Idle? && t.alerts.keys == map[p := n - 1]
    && t.expiry == map[p := n * KEY_LIFE] && forall id :: id in t.alerts.rows ==> id < n
  }

  lemma FirstDay(p: Pair)
    ensures var run := [] + [Advance(0)] + Alarm(p, 0);
      Timely(START, run) && OnSchedule(Reached(START, run), Times(START, run, p), 1, p)
  {
    hide Timely, Reached, Triggers, Times, Alarm;
    Start(p);
    Then(START, [], Advance(0));
    AlarmRaises(START, [] + [Advance(0)], p, 0);
  }

  lemma NextDay(run: seq<Move>, n: nat, p: Pair)
    requires n > 0 && Timely(START, run) && OnSchedule(Reached(START, run), Times(START, run, p), n, p)
    ensures var more := run + [Advance(n * KEY_LIFE)] + [Drop(p)] + Alarm(p, n);
      Timely(START, more) && OnSchedule(Reached(START, more), Times(START, more, p), n + 1, p)
  {
    hide Timely, Reached, Triggers, Times, Alarm;
    Then(START, run, Advance(n * KEY_LIFE));
    Then(START, run + [Advance(n * KEY_LIFE)], Drop(p));
    AlarmRaises(START, run + [Advance(n * KEY_LIFE)] + [Drop(p)], p, n);
  }

  /** The rate is reached, for every number of days: a breach from 0 to (n - 1) * 86400 seconds raises n alerts. */
  lemma {:induction false} AlertRateAttained(n: nat, p: Pair)
    requires n > 0
    ensures Timely(START, Daily(n, p)) && Unbroken(Daily(n, p), p)
    ensures var t, times := Reached(START, Daily(n, p)), Times(START, Daily(n, p), p);
      Triggers(t.alerts.events, p) == n == |times| && times[n - 1] - times[0] == (n - 1) * 86400
    ensures OnSchedule(Reached(START, Daily(n, p)), Times(START, Daily(n, p), p), n, p)
  {
    hide Timely, Reached, Times, Alarm;
    AlarmBreaches(p, n - 1);
    if n == 1 {
      FirstDay(p);
      assert Daily(0, p) + [Advance(0)] + [] + Alarm(p, 0) == [] + [Advance(0)] + Alarm(p, 0);
    } else {
      hide OnSchedule;
      AlertRateAttained(n - 1, p);
      NextDay(Daily(n - 1, p), n - 1, p);
      UnbrokenTogether(Daily(n - 1, p), Alarm(p, n - 1), (n - 1) * KEY_LIFE, p);
    }
    assert OnSchedule(Reached(START, Daily(n, p)), Times(START, Daily(n, p), p), n, p);
  }

  lemma UnbrokenTogether(run: seq<Move>, more: seq<Move>, to: int, p: Pair)
    requires Unbroken(run, p) && Unbroken(more, p)
    ensures Unbroken(run + [Advance(to)] + [Drop(p)] + more, p)
  {
  }

  lemma Start(p: Pair)
    ensures Timely(START, []) && Reached(START, []) == START && Times(START, [], p) == [] && Triggers([], p) == 0
  {
  }

  lemma AlarmBreaches(p: Pair, id: nat)
    ensures Unbroken(Alarm(p, id), p)
  {
  }
}
