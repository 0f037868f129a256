/** The per-device request limiter: INCR and TTL in one transaction, EXPIRE in a second round trip. */
module RateLimit {
  import opened Text

  const LIMIT: nat := 1000
  const WINDOW_MS: int := 60_000

  /** The Redis key of one device. */
  datatype Counter = Counter(count: nat, expiry: Option<int>)

  /** An admitted request: when its INCR ran, the count it drew, and which lifetime of the key it drew it from. */
  datatype Pass = Pass(at: int, count: nat, life: nat, born: int)

  /** `life` numbers the lifetimes of the key and `born` is the start of the current one; `owing` holds the requests
      that have seen a counter without a TTL and have yet to send their EXPIRE. */
  datatype State = State(now: int, key: Option<Counter>, life: nat, born: int, owing: set<nat>, passes: seq<Pass>)

  const INIT := State(0, None, 0, 0, {}, [])

  datatype Action = Tick(to: int) | Incr(request: nat) | Expire(request: nat) | Crash(request: nat)

  /** An expired key is gone. */
  function Live(key: Option<Counter>, now: int): Option<Counter> {
    if key.Some? && key.value.expiry.Some? && key.value.expiry.value <= now then None else key
  }

  function Incremented(key: Option<Counter>, now: int): Counter {
    match Live(key, now)
    case None => Counter(1, None)
    case Some(c) => c.(count := c.count + 1)
  }

  /** EXPIRE on a missing key does nothing. */
  function Expired(key: Option<Counter>, now: int): Option<Counter> {
    match Live(key, now)
    case None => None
    case Some(c) => Some(c.(expiry := Some(now + WINDOW_MS)))
  }

  predicate Enabled(s: State, a: Action) {
    match a
    case Tick(to) => s.now <= to
    case Incr(r) => r !in s.owing
    case Expire(r) => r in s.owing
    case Crash(r) => r in s.owing
  }

  function Apply(s: State, a: Action): State
    requires Enabled(s, a)
  {
    match a
    case Tick(to) => s.(now := to)
    case Incr(r) =>
      var c := Incremented(s.key, s.now);
      var reborn := Live(s.key, s.now).None?;
      var life, born := if reborn then s.life + 1 else s.life, if reborn then s.now else s.born;
      State(s.now, Some(c), life, born,
            if c.count == 1 || c.expiry.None? then s.owing + {r} else s.owing,
            if c.count <= LIMIT then s.passes + [Pass(s.now, c.count, life, born)] else s.passes)
    case Expire(r) => s.(key := Expired(s.key, s.now), owing := s.owing - {r})
    case Crash(r) => s.(owing := s.owing - {r})
  }

  predicate Legal(s: State, run: seq<Action>)
    decreases |run|, 0
  {
    run == [] ||
    (Legal(s, run[..|run| - 1]) && Enabled(After(s, run[..|run| - 1]), run[|run| - 1]))
  }

  function After(s: State, run: seq<Action>): State
    requires Legal(s, run)
    decreases |run|, 1
  {
    if run == [] then s else Apply(After(s, run[..|run| - 1]), run[|run| - 1])
  }

  // ----- The invariant

  /** Every lifetime lasts at least a minute: its TTL, once set, ends no sooner. */
  predicate KeySound(s: State) {
    && (s.key.Some? ==> s.born <= s.now && s.key.value.count >= 1)
    && (s.key.Some? && s.key.value.expiry.Some? ==> s.born + WINDOW_MS <= s.key.value.expiry.value)
    && (s.key.None? ==> forall k :: 0 <= k < |s.passes| ==> s.passes[k].born + WINDOW_MS <= s.now)
  }

  predicate PassSound(s: State, p: Pass) {
    && p.born <= p.at <= s.now && 1 <= p.count <= LIMIT && (p.count == 1 ==> p.at == p.born)
    && p.life <= s.life
    && (p.life == s.life ==> p.born == s.born && (s.key.Some? ==> p.count <= s.key.value.count))
    && (p.life < s.life ==> p.born + WINDOW_MS <= s.born && p.at <= s.born)
  }

  /** How an earlier pass relates to a later one: a later count in the same lifetime, or a lifetime that began
      after the earlier pass and at least a minute after the earlier lifetime did. */
  predicate Follows(p: Pass, q: Pass) {
    && p.at <= q.at && p.life <= q.life
    && (p.life == q.life ==> p.count < q.count && p.born == q.born)
    && (p.life < q.life ==> p.born + WINDOW_MS <= q.born && p.at <= q.born)
  }

  predicate Inv(s: State) {
    && KeySound(s)
    && (forall k :: 0 <= k < |s.passes| ==> PassSound(s, s.passes[k]))
    && (forall j, k :: 0 <= j < k < |s.passes| ==> Follows(s.passes[j], s.passes[k]))
  }

  lemma IncrKeepsInv(s: State, r: nat)
    requires Inv(s) && Enabled(s, Incr(r))
    ensures Inv(Apply(s, Incr(r)))
  {
    var t := Apply(s, Incr(r));
    forall k | 0 <= k < |s.passes| ensures t.passes[k] == s.passes[k] && PassSound(t, s.passes[k]) {
      assert PassSound(s, s.passes[k]);
    }
  }

  lemma StepKeepsInv(s: State, a: Action)
    requires Inv(s) && Enabled(s, a)
    ensures Inv(Apply(s, a))
  {
    match a
    case Incr(r) => IncrKeepsInv(s, r);
    case Tick(to) =>
      forall k | 0 <= k < |s.passes| ensures PassSound(Apply(s, a), s.passes[k]) { assert PassSound(s, s.passes[k]); }
    case Expire(r) =>
      forall k | 0 <= k < |s.passes| ensures PassSound(Apply(s, a), s.passes[k]) { assert PassSound(s, s.passes[k]); }
    case Crash(r) =>
      forall k | 0 <= k < |s.passes| ensures PassSound(Apply(s, a), s.passes[k]) { assert PassSound(s, s.passes[k]); }
  }

  lemma {:induction false} RunKeepsInv(s: State, run: seq<Action>)
    requires Inv(s) && Legal(s, run)
    ensures Inv(After(s, run))
  {
    hide Inv;
    if run != [] {
      RunKeepsInv(s, run[..|run| - 1]);
      StepKeepsInv(After(s, run[..|run| - 1]), run[|run| - 1]);
    }
  }

  // ----- The bound

  /** Admissions drawn from one lifetime of the key number at most the limit. */
  lemma {:induction false} CountsClimb(passes: seq<Pass>, i: nat, j: nat)
    requires forall j, k :: 0 <= j < k < |passes| ==> Follows(passes[j], passes[k])
    requires i <= j < |passes| && passes[i].life == passes[j].life
    ensures passes[j].count >= passes[i].count + (j - i)
    decreases j - i
  {
    if i < j {
      assert Follows(passes[i], passes[j - 1]) || i == j - 1;
      assert Follows(passes[j - 1], passes[j]);
      CountsClimb(passes, i, j - 1);
    }
  }

  /** The first admission after i that belongs to a later lifetime. */
  lemma LifeChanges(passes: seq<Pass>, i: nat, j: nat) returns (k: nat)
    requires forall j, k :: 0 <= j < k < |passes| ==> Follows(passes[j], passes[k])
    requires i < j < |passes| && passes[i].life < passes[j].life
    ensures i < k <= j && passes[k - 1].life == passes[i].life < passes[k].life
    decreases j - i
  {
    assert Follows(passes[i], passes[i + 1]);
    if passes[i].life < passes[i + 1].life {
      k := i + 1;
    } else {
      k := LifeChanges(passes, i + 1, j);
    }
  }

  /** Over every run, with requests interleaved at will and crashing before their EXPIRE, at most 1999 requests are
      admitted in any half-open interval of 60 seconds: the 2000th comes at least a minute after the first. */
  lemma AtMost1999PerMinute(run: seq<Action>, i: nat)
    requires Legal(INIT, run) && i + 1999 < |After(INIT, run).passes|
    ensures After(INIT, run).passes[i + 1999].at >= After(INIT, run).passes[i].at + 60_000
  {
    RunKeepsInv(INIT, run);
    var s := After(INIT, run);
    var passes, j := s.passes, i + 1999;
    assert PassSound(s, passes[i]) && PassSound(s, passes[j]) && Follows(passes[i], passes[j]);
    if passes[i].life == passes[j].life {
      CountsClimb(passes, i, j);
    } else {
      TwoLives(s, i, j);
    }
  }

  lemma TwoLives(s: State, i: nat, j: nat)
    requires Inv(s) && j == i + 1999 < |s.passes| && s.passes[i].life < s.passes[j].life
    ensures s.passes[j].at >= s.passes[i].at + WINDOW_MS
  {
    var passes := s.passes;
    var k := LifeChanges(passes, i, j);
    assert PassSound(s, passes[i]) && PassSound(s, passes[j]) && PassSound(s, passes[k - 1]);
    assert Follows(passes[i], passes[k]) && Follows(passes[i], passes[j]);
    if k < j && passes[k].life < passes[j].life {
      assert Follows(passes[k], passes[j]);
    } else {
      CountsClimb(passes, i, k - 1);
      CountsClimb(passes, k, j);
    }
  }

  /** In one lifetime of the key no more than 1000 requests are admitted, and the lifetime is a minute or longer. */
  lemma LifetimeBounds(run: seq<Action>, i: nat, j: nat)
    requires Legal(INIT, run) && i <= j < |After(INIT, run).passes|
    ensures var passes := After(INIT, run).passes;
      && (passes[i].life == passes[j].life ==> j - i < 1000)
      && (passes[i].life < passes[j].life ==> passes[j].born >= passes[i].born + 60_000)
  {
    RunKeepsInv(INIT, run);
    var s := After(INIT, run);
    assert PassSound(s, s.passes[i]) && PassSound(s, s.passes[j]);
    if s.passes[i].life == s.passes[j].life { CountsClimb(s.passes, i, j); }
    if i < j { assert Follows(s.passes[i], s.passes[j]); }
  }

  // ----- The bound is reached

  function Burst(n: nat, first: nat): seq<Action> {
    if n == 0 then [] else Burst(n - 1, first) + [Incr(first + n - 1)]
  }

  /** n requests at once on a live counter with a TTL are all admitted while they fit under the limit. */
  lemma {:induction false} BurstAdmitted(s: State, n: nat, first: nat)
    requires s.key.Some? && s.key.value.expiry.Some? && s.now < s.key.value.expiry.value
    requires s.key.value.count >= 1 && s.key.value.count + n <= LIMIT
    requires forall r :: r in s.owing ==> r < first
    ensures Legal(s, Burst(n, first))
    ensures var t := After(s, Burst(n, first));
      && t.key == Some(s.key.value.(count := s.key.value.count + n)) && t.now == s.now && t.owing == s.owing
      && |t.passes| == |s.passes| + n && s.passes <= t.passes
      && (forall k :: |s.passes| <= k < |t.passes| ==> t.passes[k].at == s.now)
      && t.life == s.life && t.born == s.born
  {
    if n > 0 {
      hide Legal, After;
      BurstAdmitted(s, n - 1, first);
      OneMoreRequest(After(s, Burst(n - 1, first)), first + n - 1);
      RunOne(After(s, Burst(n - 1, first)), Incr(first + n - 1));
      Compose(s, Burst(n - 1, first), [Incr(first + n - 1)]);
    }
  }

  lemma OneMoreRequest(s: State, request: nat)
    requires s.key.Some? && s.key.value.expiry.Some? && s.now < s.key.value.expiry.value
    requires 1 <= s.key.value.count < LIMIT && request !in s.owing
    ensures var t := Apply(s, Incr(request));
      && t.key == Some(s.key.value.(count := s.key.value.count + 1))
      && t == s.(key := t.key, passes := s.passes + [Pass(s.now, s.key.value.count + 1, s.life, s.born)])
  {
  }

  lemma {:induction false} Compose(s: State, first: seq<Action>, second: seq<Action>)
    requires Legal(s, first) && Legal(After(s, first), second)
    ensures Legal(s, first + second) && After(s, first + second) == After(After(s, first), second)
    decreases |second|
  {
    hide Enabled, Apply;
    if second == [] {
      assert first + second == first;
    } else {
      var init := second[..|second| - 1];
      Compose(s, first, init);
      assert (first + second)[..|first + second| - 1] == first + init;
    }
  }

  lemma RunOne(s: State, a: Action)
    requires Enabled(s, a)
    ensures Legal(s, [a]) && After(s, [a]) == Apply(s, a)
  {
    hide Enabled, Apply;
    assert [a][..0] == [];
  }

  function Opening(request: nat): seq<Action> { [Incr(request)] + [Expire(request)] }

  /** A first request opens a lifetime of exactly a minute. */
  lemma Opens(s: State, request: nat)
    requires Live(s.key, s.now).None? && request !in s.owing
    ensures Legal(s, Opening(request))
    ensures After(s, Opening(request)) ==
      State(s.now, Some(Counter(1, Some(s.now + WINDOW_MS))), s.life + 1, s.now, s.owing,
            s.passes + [Pass(s.now, 1, s.life + 1, s.now)])
  {
    hide Legal, After;
    RunOne(s, Incr(request));
    RunOne(Apply(s, Incr(request)), Expire(request));
    Compose(s, [Incr(request)], [Expire(request)]);
  }

  const FIRST_MINUTE: seq<Action> := Opening(0) + [Tick(59_999)] + Burst(999, 1)
  const TWO_BURSTS: seq<Action> := FIRST_MINUTE + [Tick(60_000)] + Opening(1000) + Burst(999, 1001)

  /** 1999 really can be admitted within a minute, in fact within two milliseconds. */
  lemma BoundIsReached()
    ensures Legal(INIT, TWO_BURSTS)
    ensures var passes := After(INIT, TWO_BURSTS).passes;
      |passes| == 2000 && passes[1].at == 59_999 && passes[1999].at == 60_000
  {
    hide Legal, After, Apply, Burst, Opening;
    Opens(INIT, 0);
    var s1 := After(INIT, Opening(0));
    Ticks(s1, 59_999);
    Compose(INIT, Opening(0), [Tick(59_999)]);
    var s2 := s1.(now := 59_999);
    BurstAdmitted(s2, 999, 1);
    Compose(INIT, Opening(0) + [Tick(59_999)], Burst(999, 1));
    var s3 := After(s2, Burst(999, 1));
    Ticks(s3, 60_000);
    Compose(INIT, FIRST_MINUTE, [Tick(60_000)]);
    var s4 := s3.(now := 60_000);
    Opens(s4, 1000);
    Compose(INIT, FIRST_MINUTE + [Tick(60_000)], Opening(1000));
    var s5 := After(s4, Opening(1000));
    BurstAdmitted(s5, 999, 1001);
    Compose(INIT, FIRST_MINUTE + [Tick(60_000)] + Opening(1000), Burst(999, 1001));
  }

  lemma Ticks(s: State, to: int)
    requires s.now <= to
    ensures Legal(s, [Tick(to)]) && After(s, [Tick(to)]) == s.(now := to)
  {
    RunOne(s, Tick(to));
  }

  // ----- Counters without a TTL

  /** Until some EXPIRE runs, such a counter never expires, however much time passes and whatever else crashes. */
  lemma {:induction false} OrphanLastsForever(s: State, run: seq<Action>)
    requires Legal(s, run) && s.key.Some? && s.key.value.expiry.None?
    requires forall k :: 0 <= k < |run| ==> !run[k].Expire?
    ensures After(s, run).key.Some? && After(s, run).key.value.expiry.None?
      && After(s, run).key.value.count >= s.key.value.count
  {
    if run != [] {
      OrphanLastsForever(s, run[..|run| - 1]);
      assert !run[|run| - 1].Expire?;
    }
  }

  lemma {:induction false} DebtLasts(s: State, r: nat, run: seq<Action>)
    requires Legal(s, run) && r in s.owing
    requires Expire(r) !in run && Crash(r) !in run
    ensures r in After(s, run).owing
  {
    if run != [] {
      var init, last := run[..|run| - 1], run[|run| - 1];
      assert run == init + [last];
      assert last in run;
      DebtLasts(s, r, init);
    }
  }

  lemma {:induction false} PrefixIsLegal(s: State, run: seq<Action>, n: nat)
    requires Legal(s, run) && n <= |run|
    ensures Legal(s, run[..n])
    decreases |run|
  {
    hide Enabled;
    if n == |run| {
      assert run[..n] == run;
    } else {
      PrefixIsLegal(s, run[..|run| - 1], n);
      assert run[..|run| - 1][..n] == run[..n];
    }
  }

  predicate IsFirstExpire(run: seq<Action>, k: nat) {
    k < |run| && run[k].Expire? && forall j :: 0 <= j < k ==> !run[j].Expire?
  }

  lemma FindFirstExpire(run: seq<Action>) returns (k: nat)
    requires run != [] && run[|run| - 1].Expire?
    ensures IsFirstExpire(run, k)
  {
    k := 0;
    while !run[k].Expire?
      invariant k < |run| && forall j :: 0 <= j < k ==> !run[j].Expire?
      decreases |run| - k
    {
      k := k + 1;
    }
  }

  lemma StepAt(s: State, run: seq<Action>, k: nat)
    requires Legal(s, run) && k < |run|
    ensures Legal(s, run[..k]) && Legal(s, run[..k + 1]) && Enabled(After(s, run[..k]), run[k])
    ensures After(s, run[..k + 1]) == Apply(After(s, run[..k]), run[k])
  {
    hide Enabled, Apply;
    PrefixIsLegal(s, run, k + 1);
    assert run[..k + 1][..k] == run[..k];
  }

  /** The first EXPIRE to reach a counter without a TTL finds it alive and gives it a minute. */
  lemma FirstExpireRepairs(s: State, run: seq<Action>, k: nat)
    requires Legal(s, run) && s.key.Some? && s.key.value.expiry.None? && IsFirstExpire(run, k)
    ensures Legal(s, run[..k]) && Legal(s, run[..k + 1])
    ensures var t := After(s, run[..k]);
      && t.key.Some? && t.key.value.count >= s.key.value.count
      && After(s, run[..k + 1]).key == Some(Counter(t.key.value.count, Some(t.now + WINDOW_MS)))
  {
    hide Legal, After;
    StepAt(s, run, k);
    var before := run[..k];
    forall j | 0 <= j < |before| ensures !before[j].Expire? {}
    OrphanLastsForever(s, before);
  }

  /** A counter that lost its EXPIRE to a crash is repaired by the next request that completes. The request sees the
      missing TTL and owes an EXPIRE; whatever runs until then, it still owes it, and the first EXPIRE to run since its
      INCR, which is its own at the latest, finds the counter alive and gives it a minute. */
  lemma NextRequestRepairs(s: State, r: nat, run: seq<Action>) returns (k: nat)
    requires Enabled(s, Incr(r)) && s.key.Some? && s.key.value.expiry.None?
    requires Legal(Apply(s, Incr(r)), run) && Expire(r) !in run && Crash(r) !in run
    ensures var s1, all := Apply(s, Incr(r)), run + [Expire(r)];
      && r in After(s1, run).owing && Legal(s1, all)
      && k <= |run| && all[k].Expire? && (forall j :: 0 <= j < k ==> !all[j].Expire?)
      && Legal(s1, all[..k]) && Legal(s1, all[..k + 1])
      && var t := After(s1, all[..k]);
         t.key.Some? && t.key.value.count > s.key.value.count
         && After(s1, all[..k + 1]).key == Some(Counter(t.key.value.count, Some(t.now + 60_000)))
  {
    hide Legal, After;
    var s1, all := Apply(s, Incr(r)), run + [Expire(r)];
    DebtLasts(s1, r, run);
    RunOne(After(s1, run), Expire(r));
    Compose(s1, run, [Expire(r)]);
    k := FindFirstExpire(all);
    FirstExpireRepairs(s1, all, k);
  }

  /** Every EXPIRE, a late one too, lets a live counter end a minute after it; on a key that is gone it does nothing. */
  lemma ExpireSetsMinute(s: State, r: nat)
    requires r in s.owing
    ensures var t := Apply(s, Expire(r));
      && (t.key.Some? <==> s.key.Some? && (s.key.value.expiry.None? || s.now < s.key.value.expiry.value))
      && (t.key.Some? ==> t.key == Some(Counter(s.key.value.count, Some(s.now + 60_000))))
      && t.owing == s.owing - {r} && t.passes == s.passes
  {
  }

  // ----- The dependency itself

  /** The key after one whole request and whether the request was admitted. */
  function AfterRequest(key: Option<Counter>, now: int): (Option<Counter>, bool) {
    var c := Incremented(key, now);
    (if c.count == 1 || c.expiry.None? then Expired(Some(c), now) else Some(c), c.count <= LIMIT)
  }

  /** A request that nothing interrupts is a legal run: it records an admission exactly when it is admitted, and
      leaves a live counter with a TTL. */
  lemma RequestIsRun(s: State, r: nat)
    requires r !in s.owing
    ensures var (key, admitted) := AfterRequest(s.key, s.now);
      var run := [Incr(r)] + if r in Apply(s, Incr(r)).owing then [Expire(r)] else [];
      && Legal(s, run) && After(s, run).key == key
      && (admitted <==> |After(s, run).passes| == |s.passes| + 1)
      && Live(key, s.now).Some? && key.value.expiry.Some?
  {
    hide Legal, After;
    RunOne(s, Incr(r));
    var t := Apply(s, Incr(r));
    if r in t.owing {
      RunOne(t, Expire(r));
      Compose(s, [Incr(r)], [Expire(r)]);
    } else {
      assert [Incr(r)] + [] == [Incr(r)];
    }
  }

  class Limiter {
    var key: Option<Counter>

    constructor ()
      ensures key == None
    {
      key := None;
    }

    /** The rate-limit part of `get_current_device`; false stands for status 429. A request is admitted exactly when
        fewer than 1000 came before it in this lifetime of the key; it opens a lifetime of a minute if there is none,
        never prolongs one, and always leaves a live counter with a TTL. */
    method Admit(now: int) returns (admitted: bool)
      modifies this
      ensures admitted <==> Live(old(key), now).None? || old(key).value.count < 1000
      ensures key.Some? && key.value.expiry.Some? && Live(key, now) == key
      ensures key.value.count == if Live(old(key), now).None? then 1 else old(key).value.count + 1
      ensures key.value.expiry.value
        == if Live(old(key), now).Some? && old(key).value.count >= 1 && old(key).value.expiry.Some?
           then old(key).value.expiry.value
           else now + 60_000
      ensures (key, admitted) == AfterRequest(old(key), now)
    {
      var c := Incremented(key, now);
      key := Some(c);
      if c.count == 1 || c.expiry.None? { key := Expired(key, now); }
      admitted := !(c.count > LIMIT);
    }
  }
}
