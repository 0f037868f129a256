/** The sliding window of one metric: a Redis sorted set trimmed to its hundred highest ranks. */
module Window {
  import opened Text
  import opened Statistics

  const WINDOW_SIZE: nat := 100

  /** One observation; the timestamp, in milliseconds, is also its score. */
  datatype Observation = Observation(value: Decimal, timestamp: Decimal)

  /** The sorted-set member. */
  function Member(o: Observation): string { FloatText(o.value) + ":" + FloatText(o.timestamp) }

  /** `float(elem.split(":")[0])` */
  function MemberValue(member: string): Option<real> { ParseFloat(Before(member, ':')) }

  /** The value is recovered from the member's first field, and the whole member identifies the observation. */
  lemma MemberReadsBack(o: Observation)
    ensures MemberValue(Member(o)) == Some(ToReal(o.value))
  {
    FloatTextReadsBack(o.value);
    BeforeSeparator(FloatText(o.value), ':', FloatText(o.timestamp));
  }

  lemma MemberInjective(a: Observation, b: Observation)
    requires Member(a) == Member(b)
    ensures a == b
  {
    hide FloatText;
    FloatTextReadsBack(a.value);
    FloatTextReadsBack(b.value);
    BeforeSeparator(FloatText(a.value), ':', FloatText(a.timestamp));
    BeforeSeparator(FloatText(b.value), ':', FloatText(b.timestamp));
    FloatTextInjective(a.value, b.value);
    var n := |FloatText(a.value)| + 1;
    assert Member(a)[n..] == FloatText(a.timestamp) && Member(b)[n..] == FloatText(b.timestamp);
    FloatTextInjective(a.timestamp, b.timestamp);
  }

  // ----- Rank order: by score, then bytewise by member

  predicate TextBefore(a: string, b: string) {
    b != "" && (a == "" || a[0] < b[0] || (a[0] == b[0] && TextBefore(a[1..], b[1..])))
  }

  function Score(o: Observation): real { ToReal(o.timestamp) }

  predicate Less(a: Observation, b: Observation) {
    Score(a) < Score(b) || (Score(a) == Score(b) && TextBefore(Member(a), Member(b)))
  }

  lemma {:induction false} TextTotal(a: string, b: string)
    ensures TextBefore(a, b) || a == b || TextBefore(b, a)
    ensures !(TextBefore(a, b) && TextBefore(b, a)) && !TextBefore(a, a)
  {
    if a != "" && b != "" && a[0] == b[0] {
      TextTotal(a[1..], b[1..]);
      assert a == [a[0]] + a[1..] && b == [b[0]] + b[1..];
    }
    if a != "" { TextIrreflexive(a); }
  }

  lemma {:induction false} TextIrreflexive(a: string)
    ensures !TextBefore(a, a)
  {
    if a != "" { TextIrreflexive(a[1..]); }
  }

  lemma {:induction false} TextTransitive(a: string, b: string, c: string)
    requires TextBefore(a, b) && TextBefore(b, c)
    ensures TextBefore(a, c)
  {
    if a != "" && a[0] == b[0] && b[0] == c[0] { TextTransitive(a[1..], b[1..], c[1..]); }
  }

  lemma LessTotal(a: Observation, b: Observation)
    ensures Less(a, b) || a == b || Less(b, a)
    ensures !(Less(a, b) && Less(b, a)) && !Less(a, a)
  {
    hide Member, TextBefore, Score;
    TextTotal(Member(a), Member(b));
    TextIrreflexive(Member(a));
    if Member(a) == Member(b) { MemberInjective(a, b); }
  }

  lemma LessTransitive(a: Observation, b: Observation, c: Observation)
    requires Less(a, b) && Less(b, c)
    ensures Less(a, c)
  {
    hide Member, TextBefore, Score;
    if Score(a) == Score(b) == Score(c) { TextTransitive(Member(a), Member(b), Member(c)); }
  }

  predicate Sorted(w: seq<Observation>) {
    forall j, k :: 0 <= j < k < |w| ==> Less(w[j], w[k])
  }

  // ----- The sorted set and its trimming

  function Last<T>(w: seq<T>, n: nat): seq<T> {
    if |w| <= n then w else w[|w| - n..]
  }

  /** ZADD of a member that carries its own score: inserted at its rank, or already there. */
  function ZAdd(w: seq<Observation>, o: Observation): seq<Observation> {
    if w == [] then [o]
    else
      var init, last := w[..|w| - 1], w[|w| - 1];
      if last == o then w
      else if Less(last, o) then w + [o]
      else ZAdd(init, o) + [last]
  }

  /** ZREMRANGEBYRANK key 0 -(WINDOW_SIZE + 1) */
  function Trim(w: seq<Observation>): seq<Observation> { Last(w, WINDOW_SIZE) }

  /** The window after a sequence of observations, trimmed at every step. */
  function Tracked(os: seq<Observation>): seq<Observation> {
    if os == [] then [] else Trim(ZAdd(Tracked(os[..|os| - 1]), os[|os| - 1]))
  }

  /** All observations in rank order, never trimmed. */
  function Ranked(os: seq<Observation>): seq<Observation> {
    if os == [] then [] else ZAdd(Ranked(os[..|os| - 1]), os[|os| - 1])
  }

  lemma {:induction false} ZAddSorted(w: seq<Observation>, o: Observation)
    requires Sorted(w)
    ensures Sorted(ZAdd(w, o))
    ensures forall p :: p in ZAdd(w, o) <==> p in w || p == o
  {
    hide Less;
    if w != [] {
      var init, last := w[..|w| - 1], w[|w| - 1];
      assert w == init + [last];
      LessTotal(last, o);
      if last != o && Less(last, o) {
        forall p | p in w ensures Less(p, o) {
          if p != last { LessTransitive(p, last, o); }
        }
      } else if last != o {
        ZAddSorted(init, o);
        forall p | p in ZAdd(init, o) ensures Less(p, last) { }
        SortedAppend(ZAdd(init, o), last);
      }
    }
  }

  lemma SortedAppend(w: seq<Observation>, last: Observation)
    requires Sorted(w) && forall p :: p in w ==> Less(p, last)
    ensures Sorted(w + [last])
  {
    hide Less;
  }

  lemma {:induction false} RankedSorted(os: seq<Observation>)
    ensures Sorted(Ranked(os))
    ensures forall o :: o in Ranked(os) <==> o in os
  {
    if os != [] {
      var init, last := os[..|os| - 1], os[|os| - 1];
      assert os == init + [last];
      RankedSorted(init);
      ZAddSorted(Ranked(init), last);
    }
  }

  lemma ZAddCases(init: seq<Observation>, last: Observation, o: Observation)
    ensures last == o ==> ZAdd(init + [last], o) == init + [last]
    ensures last != o && Less(last, o) ==> ZAdd(init + [last], o) == init + [last] + [o]
    ensures last != o && !Less(last, o) ==> ZAdd(init + [last], o) == ZAdd(init, o) + [last]
  {
    hide Less;
    assert (init + [last])[..|init + [last]| - 1] == init;
  }

  lemma LastAppend<T>(w: seq<T>, last: T, n: nat)
    requires n > 0
    ensures Last(w + [last], n) == Last(w, n - 1) + [last]
  {
  }

  lemma LastOfLast<T>(w: seq<T>, m: nat, n: nat)
    requires m <= n
    ensures Last(Last(w, n), m) == Last(w, m)
  {
  }

  /** Trimming before an insertion loses nothing that trimming afterwards would keep. */
  lemma {:induction false} TrimBeforeInsert(w: seq<Observation>, o: Observation, n: nat)
    ensures Last(ZAdd(Last(w, n), o), n) == Last(ZAdd(w, o), n)
    decreases |w|
  {
    if w == [] || n == 0 {
    } else {
      hide Less, ZAdd, Last;
      var init, last := w[..|w| - 1], w[|w| - 1];
      assert w == init + [last];
      LastAppend(init, last, n);
      ZAddCases(init, last, o);
      ZAddCases(Last(init, n - 1), last, o);
      if last == o {
        LastOfLast(w, n, n);
      } else if Less(last, o) {
        LastAppend(w, o, n);
        LastAppend(Last(w, n), o, n);
        LastOfLast(w, n - 1, n);
      } else {
        TrimBeforeInsert(init, o, n - 1);
        LastAppend(ZAdd(init, o), last, n);
        LastAppend(ZAdd(Last(init, n - 1), o), last, n);
      }
    }
  }

  /** The incrementally trimmed window is the last hundred of the full ranking. */
  lemma {:induction false} TrackedIsNewest(os: seq<Observation>)
    ensures Tracked(os) == Last(Ranked(os), WINDOW_SIZE)
  {
    hide ZAdd;
    if os != [] {
      TrackedIsNewest(os[..|os| - 1]);
      TrimBeforeInsert(Ranked(os[..|os| - 1]), os[|os| - 1], WINDOW_SIZE);
    }
  }

  /** What the window holds after any sequence of observations: at most a hundred of them, and every one that is
      missing ranks below a full window. */
  lemma WindowHoldsNewest(os: seq<Observation>)
    ensures var w := Tracked(os);
      && Sorted(w) && |w| <= WINDOW_SIZE
      && (forall o :: o in w ==> o in os)
      && (forall o :: o in os && o !in w ==> |w| == WINDOW_SIZE && forall p :: p in w ==> Less(o, p))
  {
    hide Less;
    RankedSorted(os);
    TrackedIsNewest(os);
    var all, w := Ranked(os), Tracked(os);
    var below := all[..|all| - |w|];
    assert all == below + w;
    forall o | o in os && o !in w ensures |w| == WINDOW_SIZE && forall p :: p in w ==> Less(o, p) {
      assert o in all && o in below;
      var k :| 0 <= k < |below| && below[k] == o;
      forall p | p in w ensures Less(o, p) {
        var j :| 0 <= j < |w| && w[j] == p;
        assert all[k] == o && all[j + |below|] == p;
      }
    }
  }

  /** The window in terms of time: at most a hundred of the observations, and if one is missing there are a hundred in
      the window, none of them older than it; among equally old ones the bytes of the member decide. */
  lemma MissingAreOlder(os: seq<Observation>, o: Observation)
    ensures |Tracked(os)| <= 100
    ensures o in os && o !in Tracked(os) ==>
      && |Tracked(os)| == 100
      && forall p :: p in Tracked(os) ==>
           && ToReal(o.timestamp) <= ToReal(p.timestamp)
           && (ToReal(o.timestamp) == ToReal(p.timestamp) ==> TextBefore(Member(o), Member(p)))
  {
    hide Member, TextBefore;
    WindowHoldsNewest(os);
  }

  /** An observation that is newer than all before it is in the window. */
  lemma NewestIsTracked(os: seq<Observation>, o: Observation)
    requires forall p :: p in os ==> ToReal(p.timestamp) < ToReal(o.timestamp)
    ensures o in Tracked(os + [o])
  {
    hide Tracked, Less, ToReal;
    var w := Tracked(os + [o]);
    assert (os + [o])[|os|] == o;
    MissingAreOlder(os + [o], o);
    WindowHoldsNewest(os + [o]);
    if |w| > 0 {
      var p := w[0];
      assert p in w && p in os + [o];
    }
  }

  /** Nothing is left out while there is room. */
  lemma FewAreAllTracked(os: seq<Observation>, o: Observation)
    requires |os| <= 100 && o in os
    ensures o in Tracked(os)
  {
    if o !in Tracked(os) {
      WindowHoldsNewest(os);
      var w := Tracked(os);
      SortedIsDistinct(w);
      var held, all := set p | p in w, set p | p in os;
      DistinctSize(w, held);
      SetSize(os, all);
      Smaller(held + {o}, all);
    }
  }

  lemma SortedIsDistinct(w: seq<Observation>)
    requires Sorted(w)
    ensures forall j, k :: 0 <= j < k < |w| ==> w[j] != w[k]
  {
    hide Less;
    forall j, k | 0 <= j < k < |w| ensures w[j] != w[k] { LessTotal(w[j], w[k]); }
  }

  lemma {:induction false} DistinctSize<T>(w: seq<T>, all: set<T>)
    requires (forall j, k :: 0 <= j < k < |w| ==> w[j] != w[k]) && forall p :: p in all <==> p in w
    ensures |all| == |w|
  {
    if w == [] {
      assert all == {};
    } else {
      var init, last := w[..|w| - 1], w[|w| - 1];
      assert w == init + [last];
      DistinctSize(init, all - {last});
    }
  }

  lemma {:induction false} SetSize<T>(w: seq<T>, all: set<T>)
    requires forall p :: p in all <==> p in w
    ensures |all| <= |w|
  {
    if w == [] {
      assert all == {};
    } else {
      var init := w[..|w| - 1];
      assert w == init + [w[|w| - 1]];
      SetSize(init, set p | p in init);
      Smaller(all - {w[|w| - 1]}, set p | p in init);
    }
  }

  lemma {:induction false} Smaller<T>(a: set<T>, b: set<T>)
    requires a <= b
    ensures |a| <= |b|
  {
    if a != {} {
      var x :| x in a;
      Smaller(a - {x}, b - {x});
    }
  }

  /** Members are compared like memcmp: a shorter one before those it begins, otherwise by the first different
      character. */
  lemma {:induction false} TextOrder(s: string, c: char, d: char, x: string, y: string)
    ensures TextBefore(s, s + [d] + y)
    ensures c < d ==> TextBefore(s + [c] + x, s + [d] + y) && !TextBefore(s + [d] + y, s + [c] + x)
  {
    if s != "" {
      TextOrder(s[1..], c, d, x, y);
      assert (s + [c] + x)[1..] == s[1..] + [c] + x && (s + [d] + y)[1..] == s[1..] + [d] + y;
    }
  }

  lemma SameEmptiness<T>(v: seq<T>, w: seq<T>)
    requires forall o :: o in v <==> o in w
    ensures v == [] <==> w == []
  {
    assert |v| > 0 ==> v[0] in v;
    assert |w| > 0 ==> w[0] in w;
  }

  lemma {:induction false} SortedUnique(v: seq<Observation>, w: seq<Observation>)
    requires Sorted(v) && Sorted(w) && forall o :: o in v <==> o in w
    ensures v == w
    decreases |v|
  {
    hide Less;
    SameEmptiness(v, w);
    if v != [] {
      var a, b := v[|v| - 1], w[|w| - 1];
      assert a in v && b in w;
      LessTotal(a, b);
      assert a == b;
      var v', w' := v[..|v| - 1], w[..|w| - 1];
      assert v == v' + [a] && w == w' + [a];
      forall o ensures o in v' <==> o in w' {
        LessTotal(a, a);
        assert o in v' ==> o in v && Less(o, a);
        assert o in w' ==> o in w && Less(o, a);
      }
      SortedUnique(v', w');
    }
  }

  /** Arrival order and redelivery do not matter: the same set of observations always leaves the same window. */
  lemma ArrivalOrderIsIrrelevant(os: seq<Observation>, ps: seq<Observation>)
    requires forall o :: o in os <==> o in ps
    ensures Tracked(os) == Tracked(ps)
  {
    RankedSorted(os);
    RankedSorted(ps);
    SortedUnique(Ranked(os), Ranked(ps));
    TrackedIsNewest(os);
    TrackedIsNewest(ps);
  }

  // ----- Evaluation

  /** The values parsed back from the window's members. */
  function Values(w: seq<Observation>): seq<real> {
    seq(|w|, k requires 0 <= k < |w| =>
      MemberReadsBack(w[k]);
      MemberValue(Member(w[k])).value)
  }

  lemma ValuesAreStored(w: seq<Observation>)
    ensures |Values(w)| == |w| && forall k :: 0 <= k < |w| ==> Values(w)[k] == ToReal(w[k].value)
  {
    hide Member, MemberValue;
    forall k | 0 <= k < |w| ensures Values(w)[k] == ToReal(w[k].value) { MemberReadsBack(w[k]); }
  }

  /** In any history, the reading just recorded is flagged only if the window has at least 11 samples, and flagged
      CRITICAL only from 18 on; and unless no reading of a full window is older, its |z| is at most 9.9. */
  lemma RecordedReadingIsBounded(os: seq<Observation>, o: Observation)
    ensures var w := Tracked(os + [o]);
      var verdict := Evaluate(Values(w), ToReal(o.value));
      && (verdict.isAnomaly ==> |w| >= 11)
      && (verdict.Critical() ==> |w| >= 18)
      && (verdict.zSquared <= 98.01
          || (|w| == 100 && forall p :: p in w ==> ToReal(o.timestamp) <= ToReal(p.timestamp)))
  {
    hide Less, Tracked, Values, Evaluate, ToReal;
    MissingAreOlder(os + [o], o);
    var w := Tracked(os + [o]);
    WindowHoldsNewest(os + [o]);
    ValuesAreStored(w);
    assert (os + [o])[|os|] == o;
    if o in w {
      var k :| 0 <= k < |w| && w[k] == o;
      assert Values(w)[k] == ToReal(o.value);
      AnomalyNeedsSamples(Values(w), ToReal(o.value));
    }
  }

  const RETENTION: int := 86400

  /** `AnomalyEvaluator.record_and_evaluate` for one key. `expiry` is the time, in seconds, at which the key runs out
      unless another observation arrives; `seen` holds, for the proofs, the observations since it last did. */
  class AnomalyEvaluator {
    var window: seq<Observation>
    var expiry: int
    ghost var seen: seq<Observation>

    ghost predicate Valid()
      reads this
    {
      window == Tracked(seen)
    }

    constructor ()
      ensures Valid() && seen == []
    {
      window, expiry, seen := [], 0, [];
    }

    /** The observations that count are those since the last gap of a day; the verdict is that of their window. */
    method RecordAndEvaluate(value: Decimal, timestamp: Decimal, now: int) returns (verdict: Verdict)
      requires Valid()
      modifies this
      ensures Valid() && expiry == now + 86400
      ensures seen == (if old(expiry) <= now then [] else old(seen)) + [Observation(value, timestamp)]
      ensures verdict == Evaluate(Values(Tracked(seen)), ToReal(value))
      ensures |window| <= 100 && forall o :: o in window ==> o in seen
      ensures forall o :: o in seen && o !in window ==>
        |window| == 100 && forall p :: p in window ==> ToReal(o.timestamp) <= ToReal(p.timestamp)
    {
      if expiry <= now { window, seen := [], []; }
      ghost var kept := seen;
      window := ZAdd(window, Observation(value, timestamp));
      window := Trim(window);
      seen := seen + [Observation(value, timestamp)];
      assert seen[..|seen| - 1] == kept;
      expiry := now + RETENTION;
      verdict := Evaluate(Values(window), ToReal(value));
      WindowHoldsNewest(seen);
      forall o { MissingAreOlder(seen, o); }
    }
  }
}
