/** Alert deduplication: a Redis key per (device, rule), the alert rows, and the published events. */
module Alerts {
  import opened Text

  // ----- Rule conditions

  function Abs(x: real): real { if x < 0.0 then -x else x }
  function MaxReal(x: real, y: real): real { if x < y then y else x }

  /** `math.isclose(a, b, abs_tol=1e-5)` with the default relative tolerance. */
  predicate IsClose(a: real, b: real) {
    Abs(a - b) <= MaxReal(0.000_000_001 * MaxReal(Abs(a), Abs(b)), 0.000_01)
  }

  /** An unknown condition never breaches. */
  predicate EvaluateCondition(actual: real, condition: string, threshold: real) {
    if condition == "GT" then actual > threshold
    else if condition == "LT" then actual < threshold
    else if condition == "GTE" then actual >= threshold
    else if condition == "LTE" then actual <= threshold
    else if condition == "EQUALS" then IsClose(actual, threshold)
    else if condition == "NOT_EQUALS" then !IsClose(actual, threshold)
    else false
  }

  /** The laws that fix the comparisons: the upper bounds move with the value and hold above the threshold, the
      lower ones are their complements, the boundary belongs to GTE and LTE, closeness is symmetric and spans 1e-5
      or, for large values, a billionth of them, and a condition that fits the rule table's eight characters is never
      NOT_EQUALS. */
  lemma ConditionLaws(a: real, b: real, t: real, condition: string)
    ensures EvaluateCondition(a, "GT", t) <==> a > t
    ensures EvaluateCondition(a, "GT", t) <==> !EvaluateCondition(a, "LTE", t)
    ensures EvaluateCondition(a, "LT", t) <==> !EvaluateCondition(a, "GTE", t)
    ensures EvaluateCondition(a, "GT", t) <==> EvaluateCondition(t, "LT", a)
    ensures a <= b && EvaluateCondition(a, "GT", t) ==> EvaluateCondition(b, "GT", t)
    ensures EvaluateCondition(t + 1.0, "GT", t) && EvaluateCondition(t, "GTE", t) && EvaluateCondition(t, "LTE", t)
    ensures EvaluateCondition(a, "EQUALS", t) <==> EvaluateCondition(t, "EQUALS", a)
    ensures -0.000_01 <= a - t <= 0.000_01 ==> EvaluateCondition(a, "EQUALS", t)
    ensures EvaluateCondition(a, "EQUALS", t) && -5000.0 <= a <= 5000.0 ==> -0.000_01 <= a - t <= 0.000_01
    ensures EvaluateCondition(a, "EQUALS", t) ==> Abs(a - t) <= 0.000_01 + 0.000_000_001 * (Abs(a) + Abs(t))
    ensures 0.0 < a <= t && t - a <= 0.000_000_001 * t ==> EvaluateCondition(a, "EQUALS", t)
    ensures EvaluateCondition(a, "NOT_EQUALS", t) <==> !EvaluateCondition(a, "EQUALS", t)
    ensures |condition| <= 8 && EvaluateCondition(a, condition, t) ==> condition in {"GT", "LT", "GTE", "LTE", "EQUALS"}
  {
    Comparisons(a, t);
    Comparisons(b, t);
    Comparisons(t, a);
    Comparisons(t + 1.0, t);
    Comparisons(t, t);
    hide EvaluateCondition;
    if |condition| <= 8 && EvaluateCondition(a, condition, t) { KnownCondition(a, condition, t); }
  }

  lemma Comparisons(a: real, t: real)
    ensures EvaluateCondition(a, "GT", t) <==> a > t
    ensures EvaluateCondition(a, "LT", t) <==> a < t
    ensures EvaluateCondition(a, "GTE", t) <==> a >= t
    ensures EvaluateCondition(a, "LTE", t) <==> a <= t
    ensures EvaluateCondition(a, "EQUALS", t) <==> IsClose(a, t)
    ensures EvaluateCondition(a, "NOT_EQUALS", t) <==> !IsClose(a, t)
  {
    assert "GT"[0] != "LT"[0] && "GTE"[0] != "LTE"[0];
  }

  lemma KnownCondition(a: real, condition: string, t: real)
    requires |condition| <= 8 && EvaluateCondition(a, condition, t)
    ensures condition in {"GT", "LT", "GTE", "LTE", "EQUALS"}
  {
    assert |"NOT_EQUALS"| == 10;
  }

  // ----- States and steps

  type Pair = (nat, nat)  // device, rule

  datatype Status = ACTIVE | ACKNOWLEDGED | RESOLVED

  datatype AlertRow = AlertRow(pair: Pair, status: Status)

  datatype Event = Triggered(pair: Pair, id: nat) | Resolved(pair: Pair, id: nat)

  /** Where the evaluator stands while it handles one rule. The GET of the key and the statement after it are one step,
      for no API call touches the key. */
  datatype Stage =
    | Idle
    | Inserted(pair: Pair, id: nat)                    // the row is committed, the key not yet set
    | Announcing(pair: Pair, id: nat)                  // the key is set, the event not yet published
    | Selected(pair: Pair, id: nat, wasActive: bool)   // the row of the key has been read
    | Closed(pair: Pair, id: nat)                      // the row is settled, the key not yet deleted
    | Withdrawing(pair: Pair, id: nat)                 // the key is deleted, the event not yet published

  /** `breached` remembers, for the proofs, the outcome of the last evaluation of each pair. */
  datatype State = State(
    keys: map<Pair, nat>, rows: map<nat, AlertRow>, events: seq<Event>,
    breached: map<Pair, bool>, stage: Stage)

  const INIT := State(map[], map[], [], map[], Idle)

  datatype Action =
    | Evaluate(pair: Pair, breach: bool, newId: nat)
    | Continue
    | Acknowledge(id: nat)
    | Resolve(id: nat)
    | Crash
    | Expire(pair: Pair)

  /** The steps of a world without faults and without key expiry. */
  predicate Faultless(a: Action) { !a.Crash? && !a.Expire? }

  /** The two API endpoints. */
  predicate FromApi(a: Action) { a.Acknowledge? || a.Resolve? }

  predicate Enabled(s: State, a: Action) {
    match a
    case Evaluate(_, _, newId) => s.stage.Idle? && newId !in s.rows
    case Continue => !s.stage.Idle?
    case _ => true
  }

  /** An API write; an unknown id is answered with 404 and changes nothing. */
  function WithStatus(s: State, id: nat, status: Status): State {
    if id in s.rows then s.(rows := s.rows[id := s.rows[id].(status := status)]) else s
  }

  function Apply(s: State, a: Action): State
    requires Enabled(s, a)
  {
    match a
    case Evaluate(pair, breach, newId) =>
      var s' := s.(breached := s.breached[pair := breach]);
      if breach && pair !in s.keys then
        s'.(rows := s.rows[newId := AlertRow(pair, ACTIVE)], stage := Inserted(pair, newId))
      else if !breach && pair in s.keys then
        var id := s.keys[pair];
        s'.(stage := Selected(pair, id, id in s.rows && s.rows[id].status == ACTIVE))
      else s'
    case Continue =>
      (match s.stage
       case Inserted(pair, id) => s.(keys := s.keys[pair := id], stage := Announcing(pair, id))
       case Announcing(pair, id) => s.(events := s.events + [Triggered(pair, id)], stage := Idle)
       case Selected(pair, id, wasActive) =>
         (if wasActive then WithStatus(s, id, RESOLVED) else s).(stage := Closed(pair, id))
       case Closed(pair, id) => s.(keys := s.keys - {pair}, stage := Withdrawing(pair, id))
       case Withdrawing(pair, id) => s.(events := s.events + [Resolved(pair, id)], stage := Idle))
    case Acknowledge(id) => WithStatus(s, id, ACKNOWLEDGED)
    case Resolve(id) => WithStatus(s, id, RESOLVED)
    case Crash => s.(stage := Idle)
    case Expire(pair) => s.(keys := s.keys - {pair})
  }

  predicate Legal(s: State, run: seq<Action>)
    decreases |run|, 0
  {
    run == [] ||
    (Legal(s, run[..|run| - 1]) && Enabled(After(s, run[..|run| - 1]), run[|run| - 1]))
  }

  function After(s: State, run: seq<Action>): State
    requires Legal(s, run)
    decreases |run|, 1
  {
    if run == [] then s else Apply(After(s, run[..|run| - 1]), run[|run| - 1])
  }

  // ----- The published history

  /** The alert of a pair that has been announced and not yet withdrawn. */
  function Open(events: seq<Event>, p: Pair): Option<nat> {
    if events == [] then None
    else
      match events[|events| - 1]
      case Triggered(q, id) => if q == p then Some(id) else Open(events[..|events| - 1], p)
      case Resolved(q, _) => if q == p then None else Open(events[..|events| - 1], p)
  }

  /** Per pair, events alternate, starting with a trigger, and each resolution names the alert last triggered. */
  predicate Alternating(events: seq<Event>) {
    events == [] ||
    (Alternating(events[..|events| - 1]) &&
     match events[|events| - 1]
     case Triggered(p, _) => Open(events[..|events| - 1], p) == None
     case Resolved(p, id) => Open(events[..|events| - 1], p) == Some(id))
  }

  /** Triggers minus resolutions of a pair. */
  function Balance(events: seq<Event>, p: Pair): int {
    if events == [] then 0
    else
      Balance(events[..|events| - 1], p)
      + match events[|events| - 1]
        case Triggered(q, _) => if q == p then 1 else 0
        case Resolved(q, _) => if q == p then -1 else 0
  }

  lemma {:induction false} BalanceIsOpen(events: seq<Event>, p: Pair)
    requires Alternating(events)
    ensures Balance(events, p) == if Open(events, p).Some? then 1 else 0
  {
    if events != [] { BalanceIsOpen(events[..|events| - 1], p); }
  }

  // ----- The invariant

  function KeyOf(s: State, p: Pair): Option<nat> { if p in s.keys then Some(s.keys[p]) else None }

  /** The alert that subscribers should believe open, given where the evaluator stands. */
  function Announced(s: State, p: Pair): Option<nat> {
    match s.stage
    case Inserted(q, _) => if q == p then None else KeyOf(s, p)
    case Announcing(q, _) => if q == p then None else KeyOf(s, p)
    case Selected(q, id, _) => if q == p then Some(id) else KeyOf(s, p)
    case Closed(q, id) => if q == p then Some(id) else KeyOf(s, p)
    case Withdrawing(q, id) => if q == p then Some(id) else KeyOf(s, p)
    case Idle => KeyOf(s, p)
  }

  predicate LastBreached(s: State, p: Pair) { p in s.breached && s.breached[p] }

  ghost predicate KeysNameRows(s: State) {
    forall p :: p in s.keys ==> s.keys[p] in s.rows && s.rows[s.keys[p]].pair == p
  }

  /** An ACTIVE row is the one its pair's key names, or is about to be. */
  ghost predicate ActiveRowsNamed(s: State) {
    forall id :: id in s.rows && s.rows[id].status == ACTIVE ==>
      KeyOf(s, s.rows[id].pair) == Some(id) || s.stage == Inserted(s.rows[id].pair, id)
  }

  predicate StageSound(s: State) {
    match s.stage
    case Idle => true
    case Inserted(p, id) => p !in s.keys && id in s.rows && s.rows[id].pair == p && LastBreached(s, p)
    case Announcing(p, id) => KeyOf(s, p) == Some(id) && LastBreached(s, p)
    case Selected(p, id, wasActive) =>
      KeyOf(s, p) == Some(id) && !LastBreached(s, p) && (!wasActive ==> id in s.rows && s.rows[id].status != ACTIVE)
    case Closed(p, id) => KeyOf(s, p) == Some(id) && !LastBreached(s, p) && id in s.rows && s.rows[id].status != ACTIVE
    case Withdrawing(p, id) => p !in s.keys && !LastBreached(s, p)
  }

  ghost predicate KeysFollowReadings(s: State) {
    forall p :: (s.stage.Idle? || s.stage.pair != p) ==> (p in s.keys <==> LastBreached(s, p))
  }

  ghost predicate EventsFollowKeys(s: State) {
    Alternating(s.events) && forall p :: Open(s.events, p) == Announced(s, p)
  }

  ghost predicate Inv(s: State) {
    KeysNameRows(s) && ActiveRowsNamed(s) && StageSound(s) && KeysFollowReadings(s) && EventsFollowKeys(s)
  }

  lemma Publish(events: seq<Event>, e: Event)
    requires Alternating(events)
    requires Open(events, e.pair) == if e.Triggered? then None else Some(e.id)
    ensures Alternating(events + [e])
    ensures forall p ::
      Open(events + [e], p) == if p != e.pair then Open(events, p) else if e.Triggered? then Some(e.id) else None
  {
    assert (events + [e])[..|events|] == events;
  }

  lemma EvaluateKeepsInv(s: State, p: Pair, breach: bool, newId: nat)
    requires Inv(s) && Enabled(s, Evaluate(p, breach, newId))
    ensures Inv(Apply(s, Evaluate(p, breach, newId)))
  {
    hide Alternating, Open;
  }

  lemma SettingKeyKeepsInv(s: State)
    requires Inv(s) && s.stage.Inserted?
    ensures Inv(Apply(s, Continue))
  {
    hide Alternating, Open;
  }

  lemma AnnouncingKeepsInv(s: State)
    requires Inv(s) && s.stage.Announcing?
    ensures Inv(Apply(s, Continue))
  {
    Publish(s.events, Triggered(s.stage.pair, s.stage.id));
    hide Alternating, Open;
  }

  lemma SettlingRowKeepsInv(s: State)
    requires Inv(s) && s.stage.Selected?
    ensures Inv(Apply(s, Continue))
  {
    hide Alternating, Open;
  }

  lemma DeletingKeyKeepsInv(s: State)
    requires Inv(s) && s.stage.Closed?
    ensures Inv(Apply(s, Continue))
  {
    hide Alternating, Open;
  }

  lemma WithdrawingKeepsInv(s: State)
    requires Inv(s) && s.stage.Withdrawing?
    ensures Inv(Apply(s, Continue))
  {
    Publish(s.events, Resolved(s.stage.pair, s.stage.id));
    hide Alternating, Open;
  }

  lemma ContinueKeepsInv(s: State)
    requires Inv(s) && Enabled(s, Continue)
    ensures Inv(Apply(s, Continue))
  {
    hide Inv, Apply;
    match s.stage
    case Inserted(_, _) => SettingKeyKeepsInv(s);
    case Announcing(_, _) => AnnouncingKeepsInv(s);
    case Selected(_, _, _) => SettlingRowKeepsInv(s);
    case Closed(_, _) => DeletingKeyKeepsInv(s);
    case Withdrawing(_, _) => WithdrawingKeepsInv(s);
  }

  lemma ApiKeepsInv(s: State, id: nat, status: Status)
    requires Inv(s) && status != ACTIVE
    ensures Inv(WithStatus(s, id, status))
  {
    hide Alternating, Open;
  }

  lemma StepKeepsInv(s: State, a: Action)
    requires Inv(s) && Enabled(s, a) && Faultless(a)
    ensures Inv(Apply(s, a))
  {
    hide Inv;
    match a
    case Evaluate(p, breach, newId) => EvaluateKeepsInv(s, p, breach, newId);
    case Continue => ContinueKeepsInv(s);
    case Acknowledge(id) => ApiKeepsInv(s, id, ACKNOWLEDGED);
    case Resolve(id) => ApiKeepsInv(s, id, RESOLVED);
  }

  lemma {:induction false} RunKeepsInv(s: State, run: seq<Action>)
    requires Inv(s) && Legal(s, run) && forall a :: a in run ==> Faultless(a)
    ensures Inv(After(s, run))
  {
    hide Inv;
    if run != [] {
      RunKeepsInv(s, run[..|run| - 1]);
      StepKeepsInv(After(s, run[..|run| - 1]), run[|run| - 1]);
    }
  }

  lemma InitInv()
    ensures Inv(INIT)
  {
  }

  // ----- Agreement of keys, rows, events and readings

  /** After any run of one evaluator with API calls interleaved at every await, between two rules: the events of each
      pair alternate starting with a trigger; triggers exceed resolutions by one exactly when the key is set, which is
      exactly when the last evaluated reading breached; and the open alert is the one the key names. */
  lemma EventsAgree(run: seq<Action>, p: Pair)
    requires Legal(INIT, run) && forall a :: a in run ==> Faultless(a)
    requires After(INIT, run).stage.Idle?
    ensures var s := After(INIT, run);
      && Alternating(s.events)
      && Balance(s.events, p) == (if p in s.keys then 1 else 0)
      && (p in s.keys <==> LastBreached(s, p))
      && Open(s.events, p) == KeyOf(s, p)
  {
    RunKeepsInv(INIT, run);
    BalanceIsOpen(After(INIT, run).events, p);
  }

  predicate ActiveFor(s: State, id: nat, p: Pair) {
    id in s.rows && s.rows[id] == AlertRow(p, ACTIVE)
  }

  /** In every state of such a run there is at most one ACTIVE row per pair, and once the evaluator is between rules
      it is the one named by the pair's key. */
  lemma AtMostOneActiveRow(run: seq<Action>, p: Pair, i: nat, j: nat)
    requires Legal(INIT, run) && forall a :: a in run ==> Faultless(a)
    ensures var s := After(INIT, run);
      && (ActiveFor(s, i, p) && ActiveFor(s, j, p) ==> i == j)
      && (s.stage.Idle? && ActiveFor(s, i, p) ==> KeyOf(s, p) == Some(i))
  {
    hide Alternating, Open, Legal, After;
    InitInv();
    RunKeepsInv(INIT, run);
  }

  // ----- Acknowledged rows

  predicate IsAcknowledged(s: State, id: nat) { id in s.rows && s.rows[id].status == ACKNOWLEDGED }

  /** The evaluator has read the row as ACTIVE and is about to write RESOLVED. */
  predicate AboutToResolve(s: State, id: nat) {
    s.stage.Selected? && s.stage.id == id && s.stage.wasActive
  }

  lemma AcknowledgementStep(s: State, a: Action, id: nat)
    requires Enabled(s, a) && a != Resolve(id) && IsAcknowledged(s, id) && !AboutToResolve(s, id)
    ensures IsAcknowledged(Apply(s, a), id) && !AboutToResolve(Apply(s, a), id)
  {
  }

  /** Unless the evaluator is about to overwrite it, an acknowledgement outlasts every run, with crashes and key expiry
      too, in which nobody resolves the alert by hand. */
  lemma {:induction false} AcknowledgementHolds(s: State, run: seq<Action>, id: nat)
    requires Legal(s, run) && Resolve(id) !in run && IsAcknowledged(s, id) && !AboutToResolve(s, id)
    ensures IsAcknowledged(After(s, run), id) && !AboutToResolve(After(s, run), id)
  {
    hide IsAcknowledged, AboutToResolve, Enabled, Apply;
    if run != [] {
      var init, last := run[..|run| - 1], run[|run| - 1];
      assert run == init + [last] && last in run;
      AcknowledgementHolds(s, init, id);
      AcknowledgementStep(After(s, init), last, id);
    }
  }

  /** Some run without a manual resolution takes the row out of ACKNOWLEDGED. */
  ghost predicate CanBeLost(s: State, id: nat) {
    exists run :: Legal(s, run) && Resolve(id) !in run && !IsAcknowledged(After(s, run), id)
  }

  /** An acknowledgement can be lost to the evaluator in one case only, and in that case it can: the evaluator read the
      row as ACTIVE before the acknowledgement was committed and has not written yet. */
  lemma AcknowledgementLostExactly(s: State, id: nat)
    requires IsAcknowledged(s, id)
    ensures CanBeLost(s, id) <==> s.stage.Selected? && s.stage.id == id && s.stage.wasActive
  {
    if CanBeLost(s, id) && !AboutToResolve(s, id) {
      var run :| Legal(s, run) && Resolve(id) !in run && !IsAcknowledged(After(s, run), id);
      AcknowledgementHolds(s, run, id);
      assert false;
    }
    if AboutToResolve(s, id) {
      hide Legal, After;
      RunOne(s, Continue);
      assert Legal(s, [Continue]) && Resolve(id) !in [Continue];
    }
  }

  /** The status an API history leaves on a row. */
  function LastWritten(api: seq<Action>, id: nat, before: Status): Status {
    if api == [] then before
    else
      match api[|api| - 1]
      case Acknowledge(i) => if i == id then ACKNOWLEDGED else LastWritten(api[..|api| - 1], id, before)
      case Resolve(i) => if i == id then RESOLVED else LastWritten(api[..|api| - 1], id, before)
      case _ => LastWritten(api[..|api| - 1], id, before)
  }

  lemma {:induction false} ApiRun(s: State, api: seq<Action>, id: nat)
    requires forall k :: 0 <= k < |api| ==> FromApi(api[k])
    requires id in s.rows
    ensures Legal(s, api) && After(s, api).stage == s.stage && After(s, api).keys == s.keys
    ensures id in After(s, api).rows
      && After(s, api).rows[id] == s.rows[id].(status := LastWritten(api, id, s.rows[id].status))
  {
    if api != [] {
      ApiRun(s, api[..|api| - 1], id);
      assert FromApi(api[|api| - 1]);
    }
  }

  /** Over the whole recovery of an ACTIVE alert: the API calls that fall between the read and the write leave the row
      ACKNOWLEDGED exactly when the last of them on this alert acknowledged it, and that is overwritten by RESOLVED. */
  lemma RecoveryOverwritesLateAcknowledgement(s: State, p: Pair, newId: nat, api: seq<Action>)
    requires s.stage.Idle? && newId !in s.rows && p in s.keys
    requires s.keys[p] in s.rows && s.rows[s.keys[p]].status == ACTIVE
    requires forall k :: 0 <= k < |api| ==> FromApi(api[k])
    ensures var id := s.keys[p];
      var selected := Apply(s, Evaluate(p, false, newId));
      && Legal(selected, api)
      && After(selected, api).stage == Selected(p, id, true)
      && id in After(selected, api).rows
      && (After(selected, api).rows[id].status == ACKNOWLEDGED <==> LastWritten(api, id, ACTIVE) == ACKNOWLEDGED)
      && Apply(After(selected, api), Continue).rows[id].status == RESOLVED
  {
    hide Legal, After;
    ApiRun(Apply(s, Evaluate(p, false, newId)), api, s.keys[p]);
  }

  lemma Extend(s: State, run: seq<Action>, a: Action)
    requires Legal(s, run) && Enabled(After(s, run), a)
    ensures Legal(s, run + [a]) && After(s, run + [a]) == Apply(After(s, run), a)
  {
    hide Enabled, Apply;
    assert (run + [a])[..|run|] == run;
  }

  lemma RunOne(s: State, a: Action)
    requires Enabled(s, a)
    ensures Legal(s, [a]) && After(s, [a]) == Apply(s, a)
  {
    hide Enabled, Apply;
    assert [a][..0] == [];
  }

  lemma RunThree(s: State, a: Action, b: Action, c: Action)
    requires Enabled(s, a) && Enabled(Apply(s, a), b) && Enabled(Apply(Apply(s, a), b), c)
    ensures Legal(s, [a, b, c]) && After(s, [a, b, c]) == Apply(Apply(Apply(s, a), b), c)
  {
    hide Enabled, Apply, Legal, After;
    RunOne(s, a);
    Extend(s, [a], b);
    assert [a] + [b] == [a, b];
    Extend(s, [a, b], c);
    assert [a, b] + [c] == [a, b, c];
  }

  lemma RunFour(s: State, a: Action, b: Action, c: Action, d: Action)
    requires Enabled(s, a) && Enabled(Apply(s, a), b) && Enabled(Apply(Apply(s, a), b), c)
    requires Enabled(Apply(Apply(Apply(s, a), b), c), d)
    ensures Legal(s, [a, b, c, d]) && After(s, [a, b, c, d]) == Apply(Apply(Apply(Apply(s, a), b), c), d)
  {
    hide Enabled, Apply, Legal, After;
    RunThree(s, a, b, c);
    Extend(s, [a, b, c], d);
    assert [a, b, c] + [d] == [a, b, c, d];
  }

  const P: Pair := (1, 1)
  const LOST_ACKNOWLEDGEMENT: seq<Action> :=
    [Evaluate(P, true, 7), Continue, Continue, Evaluate(P, false, 8)] + [Acknowledge(7)] + [Continue]

  /** One such run without faults, from the empty state: the operator's acknowledgement is lost. */
  lemma AcknowledgementCanBeLost()
    ensures (forall a :: a in LOST_ACKNOWLEDGEMENT ==> Faultless(a)) && Acknowledge(7) in LOST_ACKNOWLEDGEMENT
    ensures Legal(INIT, LOST_ACKNOWLEDGEMENT)
    ensures After(INIT, LOST_ACKNOWLEDGEMENT).rows == map[7 := AlertRow(P, RESOLVED)]
  {
    hide Legal, After;
    var first := [Evaluate(P, true, 7), Continue, Continue, Evaluate(P, false, 8)];
    RunFour(INIT, Evaluate(P, true, 7), Continue, Continue, Evaluate(P, false, 8));
    Extend(INIT, first, Acknowledge(7));
    Extend(INIT, first + [Acknowledge(7)], Continue);
  }

  const ORPHANED_ROW: seq<Action> := [Evaluate(P, true, 7), Crash, Evaluate(P, true, 8), Continue]

  /** Without the no-fault assumption two ACTIVE rows of one pair coexist: a crash before the key was set. */
  lemma CrashLeavesTwoActiveRows()
    ensures Legal(INIT, ORPHANED_ROW)
    ensures ActiveFor(After(INIT, ORPHANED_ROW), 7, P) && ActiveFor(After(INIT, ORPHANED_ROW), 8, P)
  {
    hide Legal, After;
    RunFour(INIT, Evaluate(P, true, 7), Crash, Evaluate(P, true, 8), Continue);
  }

  // ----- Processing a reading

  datatype Rule = Rule(id: nat, metric: string, condition: string, threshold: real)

  /** The effect of one rule when nothing interferes: the key, the row and the event change together. */
  function EvaluateRule(s: State, p: Pair, breach: bool, newId: nat): State {
    var s' := s.(breached := s.breached[p := breach]);
    if breach && p !in s.keys then
      s'.(rows := s.rows[newId := AlertRow(p, ACTIVE)], keys := s.keys[p := newId],
          events := s.events + [Triggered(p, newId)])
    else if !breach && p in s.keys then
      var id := s.keys[p];
      var settled := if id in s.rows && s.rows[id].status == ACTIVE then WithStatus(s', id, RESOLVED) else s';
      settled.(keys := s.keys - {p}, events := s.events + [Resolved(p, id)])
    else s'
  }

  /** The steps one rule takes. */
  function RuleRun(s: State, p: Pair, breach: bool, newId: nat): seq<Action> {
    if breach && p !in s.keys then [Evaluate(p, breach, newId), Continue, Continue]
    else if !breach && p in s.keys then [Evaluate(p, breach, newId), Continue, Continue, Continue]
    else [Evaluate(p, breach, newId)]
  }

  lemma RuleIsRun(s: State, p: Pair, breach: bool, newId: nat)
    requires s.stage.Idle? && newId !in s.rows
    ensures Legal(s, RuleRun(s, p, breach, newId))
    ensures After(s, RuleRun(s, p, breach, newId)) == EvaluateRule(s, p, breach, newId)
  {
    hide Legal, After;
    var a := Evaluate(p, breach, newId);
    if breach && p !in s.keys {
      RunThree(s, a, Continue, Continue);
    } else if !breach && p in s.keys {
      RunFour(s, a, Continue, Continue, Continue);
    } else {
      RunOne(s, a);
    }
  }
}
