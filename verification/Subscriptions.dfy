/** The WebSocket connection manager: which sockets are subscribed to which channel. */
module Subscriptions {

  /** One change to the subscriptions; `failed` marks the removals a broadcast makes after a failed send. */
  datatype Op = Subscribe(socket: nat, channel: string) | Unsubscribe(socket: nat, channel: string, failed: bool)

  /** The socket's latest operation on the channel is a subscription. */
  predicate Subscribed(history: seq<Op>, socket: nat, channel: string) {
    if history == [] then false
    else
      var last := history[|history| - 1];
      if last.socket == socket && last.channel == channel then last.Subscribe?
      else Subscribed(history[..|history| - 1], socket, channel)
  }

  lemma SubscribedAppend(history: seq<Op>, op: Op)
    ensures forall w, c :: Subscribed(history + [op], w, c) <==>
      if op.socket == w && op.channel == c then op.Subscribe? else Subscribed(history, w, c)
  {
    assert (history + [op])[..|history|] == history;
  }

  /** A call another coroutine makes while a broadcast is between two sends. */
  datatype Call = Connect(socket: nat, channels: seq<string>) | Disconnect(socket: nat, channels: seq<string>)

  function Ops(call: Call): seq<Op> {
    match call
    case Connect(w, cs) => seq(|cs|, k requires 0 <= k < |cs| => Subscribe(w, cs[k]))
    case Disconnect(w, cs) => seq(|cs|, k requires 0 <= k < |cs| => Unsubscribe(w, cs[k], false))
  }

  lemma OpAt(call: Call, i: nat)
    requires i < |call.channels|
    ensures var op := Ops(call)[i];
      op.socket == call.socket && op.channel == call.channels[i] && op.Subscribe? == call.Connect?
  {
  }

  /** A whole call settles exactly its own socket on exactly its own channels, even if a channel is named twice. */
  lemma {:induction false} CallSettles(history: seq<Op>, call: Call, n: nat, w: nat, c: string)
    requires n <= |call.channels|
    ensures Subscribed(history + Ops(call)[..n], w, c) <==>
      if w == call.socket && c in call.channels[..n] then call.Connect? else Subscribed(history, w, c)
  {
    if n == 0 {
      assert history + Ops(call)[..0] == history;
    } else {
      hide Ops, Subscribed;
      CallSettles(history, call, n - 1, w, c);
      var ops := Ops(call);
      OpAt(call, n - 1);
      SubscribedAppend(history + ops[..n - 1], ops[n - 1]);
      assert history + ops[..n] == history + ops[..n - 1] + [ops[n - 1]];
      assert call.channels[..n] == call.channels[..n - 1] + [call.channels[n - 1]];
    }
  }

  // ----- What happens during a broadcast

  /** The operations of some calls, one call after the other. */
  function AllOps(calls: seq<Call>): seq<Op> {
    if calls == [] then [] else AllOps(calls[..|calls| - 1]) + Ops(calls[|calls| - 1])
  }

  /** The operations of the calls that fall between the first n sends. */
  function OthersOps(others: nat -> seq<Call>, n: nat): seq<Op> {
    if n == 0 then [] else OthersOps(others, n - 1) + AllOps(others(n - 1))
  }

  predicate Failed(op: Op) { op.Unsubscribe? && op.failed }

  /** A history without the removals that broadcasts made. */
  function Called(history: seq<Op>): seq<Op> {
    if history == [] then []
    else
      var last := history[|history| - 1];
      Called(history[..|history| - 1]) + (if Failed(last) then [] else [last])
  }

  /** Everything that happens during a broadcast: before each send the calls of others, after it the removal of the
      socket if the send failed. */
  function BroadcastOps(sent: seq<nat>, channel: string, failing: set<nat>, others: nat -> seq<Call>): seq<Op> {
    if sent == [] then []
    else
      var n := |sent| - 1;
      BroadcastOps(sent[..n], channel, failing, others) + AllOps(others(n)) + Removal(sent[n], channel, failing)
  }

  function Removal(socket: nat, channel: string, failing: set<nat>): seq<Op> {
    if socket in failing then [Unsubscribe(socket, channel, true)] else []
  }

  lemma OneMoreCall(calls: seq<Call>, n: nat)
    requires n < |calls|
    ensures AllOps(calls[..n + 1]) == AllOps(calls[..n]) + Ops(calls[n])
  {
    hide Ops;
    assert calls[..n + 1][..n] == calls[..n];
  }

  lemma OneMoreSend(sent: seq<nat>, w: nat, channel: string, failing: set<nat>, others: nat -> seq<Call>)
    ensures BroadcastOps(sent + [w], channel, failing, others)
      == BroadcastOps(sent, channel, failing, others) + AllOps(others(|sent|)) + Removal(w, channel, failing)
  {
    assert (sent + [w])[..|sent|] == sent;
  }

  lemma {:induction false} CalledConcat(a: seq<Op>, b: seq<Op>)
    ensures Called(a + b) == Called(a) + Called(b)
    decreases |b|
  {
    if b == [] {
      assert a + b == a;
    } else {
      hide Failed;
      var init := b[..|b| - 1];
      CalledConcat(a, init);
      assert (a + b)[..|a + b| - 1] == a + init;
    }
  }

  lemma {:induction false} CalledPlain(history: seq<Op>)
    requires forall op :: op in history ==> !Failed(op)
    ensures Called(history) == history
  {
    if history != [] {
      assert history[|history| - 1] in history;
      CalledPlain(history[..|history| - 1]);
    }
  }

  lemma {:induction false} CallsNeverFail(calls: seq<Call>)
    ensures forall op :: op in AllOps(calls) ==> !Failed(op)
  {
    if calls != [] {
      CallsNeverFail(calls[..|calls| - 1]);
      assert forall op :: op in Ops(calls[|calls| - 1]) ==> !Failed(op);
    }
  }

  /** Apart from removals after failed sends, only the calls of others happen, all of them and in their order. */
  lemma {:induction false} OthersHappen(sent: seq<nat>, channel: string, failing: set<nat>, others: nat -> seq<Call>)
    ensures Called(BroadcastOps(sent, channel, failing, others)) == OthersOps(others, |sent|)
  {
    if sent != [] {
      var n := |sent| - 1;
      var before, calls, removal := BroadcastOps(sent[..n], channel, failing, others), AllOps(others(n)),
          Removal(sent[n], channel, failing);
      OthersHappen(sent[..n], channel, failing, others);
      CalledConcat(before + calls, removal);
      CalledConcat(before, calls);
      CallsNeverFail(others(n));
      CalledPlain(calls);
      assert Called(removal) == [] by { assert removal != [] ==> removal[..0] == []; }
    }
  }

  /** Removals after failed sends are of exactly the sockets whose send failed, and from the broadcast's channel. */
  lemma {:induction false} RemovalsAreFailures(
    sent: seq<nat>, channel: string, failing: set<nat>, others: nat -> seq<Call>, w: nat, c: string)
    ensures Unsubscribe(w, c, true) in BroadcastOps(sent, channel, failing, others)
      <==> c == channel && w in sent && w in failing
  {
    if sent != [] {
      hide AllOps;
      var n := |sent| - 1;
      RemovalsAreFailures(sent[..n], channel, failing, others, w, c);
      CallsNeverFail(others(n));
      assert sent == sent[..n] + [sent[n]];
    }
  }

  /** No operation concerns the socket's subscription to the channel. */
  predicate Untouched(history: seq<Op>, w: nat, c: string) {
    forall op :: op in history ==> !(op.socket == w && op.channel == c)
  }

  lemma {:induction false} UntouchedKeeps(history: seq<Op>, more: seq<Op>, w: nat, c: string)
    requires Untouched(more, w, c)
    ensures Subscribed(history + more, w, c) <==> Subscribed(history, w, c)
    decreases |more|
  {
    if more == [] {
      assert history + more == history;
    } else {
      var init, last := more[..|more| - 1], more[|more| - 1];
      assert last in more && forall op :: op in init ==> op in more;
      UntouchedKeeps(history, init, w, c);
      assert (history + more)[..|history + more| - 1] == history + init;
    }
  }

  /** A broadcast unsubscribes nobody else: a subscription that no other call touches meanwhile is as it was, unless it
      is to this channel and the send on it failed. */
  lemma {:induction false} OthersAreSpared(
    history: seq<Op>, sent: seq<nat>, channel: string, failing: set<nat>, others: nat -> seq<Call>, w: nat, c: string)
    requires Untouched(OthersOps(others, |sent|), w, c)
    ensures Subscribed(history + BroadcastOps(sent, channel, failing, others), w, c)
      <==> Subscribed(history, w, c) && !(c == channel && w in sent && w in failing)
  {
    if sent == [] {
      assert history + [] == history;
    } else {
      var n := |sent| - 1;
      assert sent == sent[..n] + [sent[n]];
      hide Subscribed, AllOps, Untouched, Removal, BroadcastOps;
      UntouchedParts(OthersOps(others, n), AllOps(others(n)), w, c);
      OthersAreSpared(history, sent[..n], channel, failing, others, w, c);
      OneMoreSend(sent[..n], sent[n], channel, failing, others);
      SendSpares(history, BroadcastOps(sent[..n], channel, failing, others), AllOps(others(n)), sent[n], channel,
          failing, w, c);
    }
  }

  lemma UntouchedParts(a: seq<Op>, b: seq<Op>, w: nat, c: string)
    requires Untouched(a + b, w, c)
    ensures Untouched(a, w, c) && Untouched(b, w, c)
  {
    assert forall op :: op in a || op in b ==> op in a + b;
  }

  lemma SendSpares(
    history: seq<Op>, before: seq<Op>, calls: seq<Op>, socket: nat, channel: string, failing: set<nat>, w: nat,
        c: string)
    requires Untouched(calls, w, c)
    ensures Subscribed(history + (before + calls + Removal(socket, channel, failing)), w, c)
      <==> Subscribed(history + before, w, c) && !(c == channel && w == socket && w in failing)
  {
    hide Subscribed;
    UntouchedKeeps(history + before, calls, w, c);
    assert history + (before + calls) == history + before + calls;
    if socket in failing {
      SubscribedAppend(history + before + calls, Unsubscribe(socket, channel, true));
      assert history + (before + calls + Removal(socket, channel, failing))
          == history + before + calls + [Unsubscribe(socket, channel, true)];
    } else {
      assert before + calls + [] == before + calls;
    }
  }

  class ConnectionManager {
    var activeSubscriptions: map<string, set<nat>>
    ghost var history: seq<Op>

    /** The map is the relation the history describes, and no channel is left with an empty set. */
    ghost predicate Valid()
      reads this
    {
      && (forall c :: c in activeSubscriptions ==> activeSubscriptions[c] != {})
      && (forall w, c :: Subscribed(history, w, c) <==> c in activeSubscriptions && w in activeSubscriptions[c])
    }

    constructor ()
      ensures Valid() && history == []
    {
      activeSubscriptions, history := map[], [];
    }

    method Connect(socket: nat, channels: seq<string>)
      requires Valid()
      modifies this
      ensures Valid() && history == old(history) + Ops(Call.Connect(socket, channels))
    {
      for n := 0 to |channels|
        invariant Valid() && history == old(history) + Ops(Call.Connect(socket, channels))[..n]
      {
        Add(socket, channels[n]);
      }
    }

    method Add(socket: nat, channel: string)
      requires Valid()
      modifies this
      ensures Valid() && history == old(history) + [Subscribe(socket, channel)]
    {
      if channel !in activeSubscriptions { activeSubscriptions := activeSubscriptions[channel := {}]; }
      activeSubscriptions := activeSubscriptions[channel := activeSubscriptions[channel] + {socket}];
      SubscribedAppend(history, Subscribe(socket, channel));
      history := history + [Subscribe(socket, channel)];
    }

    method Disconnect(socket: nat, channels: seq<string>)
      requires Valid()
      modifies this
      ensures Valid() && history == old(history) + Ops(Call.Disconnect(socket, channels))
    {
      for n := 0 to |channels|
        invariant Valid() && history == old(history) + Ops(Call.Disconnect(socket, channels))[..n]
      {
        Remove(socket, channels[n], false);
      }
    }

    method Remove(socket: nat, channel: string, failed: bool)
      requires Valid()
      modifies this
      ensures Valid() && history == old(history) + [Unsubscribe(socket, channel, failed)]
    {
      if channel in activeSubscriptions {
        ghost var before := activeSubscriptions[channel];
        activeSubscriptions := activeSubscriptions[channel := activeSubscriptions[channel] - {socket}];
        assert forall w :: w in before <==> w in activeSubscriptions[channel] || (w == socket && w in before);
        if activeSubscriptions[channel] == {} { activeSubscriptions := activeSubscriptions - {channel}; }
      }
      SubscribedAppend(history, Unsubscribe(socket, channel, failed));
      history := history + [Unsubscribe(socket, channel, failed)];
    }

    method Handle(call: Call)
      requires Valid()
      modifies this
      ensures Valid() && history == old(history) + Ops(call)
    {
      match call {
        case Connect(w, cs) => Connect(w, cs);
        case Disconnect(w, cs) => Disconnect(w, cs);
      }
    }

    method Perform(calls: seq<Call>)
      requires Valid()
      modifies this
      ensures Valid() && history == old(history) + AllOps(calls)
    {
      hide Subscribed, Ops;
      assert calls[..0] == [] && old(history) + AllOps([]) == old(history);
      for n := 0 to |calls|
        invariant Valid() && history == old(history) + AllOps(calls[..n])
      {
        hide AllOps;
        OneMoreCall(calls, n);
        Handle(calls[n]);
      }
      assert calls[..|calls|] == calls;
    }

    /** One send of a broadcast, with the calls that come before it. */
    method Send(w: nat, channel: string, failing: set<nat>, calls: seq<Call>)
      requires Valid()
      modifies this
      ensures Valid() && history == old(history) + AllOps(calls) + Removal(w, channel, failing)
    {
      hide Subscribed, Ops, AllOps;
      Perform(calls);
      if w in failing { Remove(w, channel, true); }
    }

    /** `_broadcast_to_subscribers`: a snapshot under the lock, then one send per socket, during which other coroutines
        connect and disconnect at will (`others`). Every subscriber of the snapshot is sent to once. Of what happens
        meanwhile, everything but the removals after failed sends is the doing of others; those removals are of exactly
        the sockets whose send failed, and from this channel only; every subscription that others leave alone and that
        did not fail is as it was. */
    method Broadcast(channel: string, failing: set<nat>, others: nat -> seq<Call>) returns (sent: seq<nat>)
      requires Valid()
      modifies this
      ensures Valid() && old(history) <= history
      ensures forall w :: w in sent <==> Subscribed(old(history), w, channel)
      ensures forall j, k :: 0 <= j < k < |sent| ==> sent[j] != sent[k]
      ensures Called(history[|old(history)|..]) == OthersOps(others, |sent|)
      ensures forall w, c :: Unsubscribe(w, c, true) in history[|old(history)|..]
                             <==> c == channel && w in sent && w in failing
      ensures forall w, c :: Untouched(OthersOps(others, |sent|), w, c) ==>
                (Subscribed(history, w, c) <==>
                  Subscribed(old(history), w, c) && !(c == channel && w in sent && w in failing))
    {
      hide AllOps, BroadcastOps, OthersOps, Called, Untouched;
      var subscribers := if channel in activeSubscriptions then activeSubscriptions[channel] else {};
      sent := SendAll(subscribers, channel, failing, others);
      BroadcastProperties(old(history), sent, channel, failing, others);
    }

    /** The loop over the snapshot. */
    method SendAll(
        subscribers: set<nat>, channel: string, failing: set<nat>, others: nat -> seq<Call>) returns (sent: seq<nat>)
      requires Valid()
      modifies this
      ensures Valid() && history == old(history) + BroadcastOps(sent, channel, failing, others)
      ensures forall w :: w in sent <==> w in subscribers
      ensures forall j, k :: 0 <= j < k < |sent| ==> sent[j] != sent[k]
    {
      hide Subscribed, AllOps, Removal;
      var left := subscribers;
      sent := [];
      assert old(history) + [] == old(history);
      while left != {}
        invariant Valid() && history == old(history) + BroadcastOps(sent, channel, failing, others)
        invariant forall w :: w in subscribers <==> w in sent || w in left
        invariant forall w :: w in sent ==> w !in left
        invariant forall j, k :: 0 <= j < k < |sent| ==> sent[j] != sent[k]
        decreases left
      {
        hide BroadcastOps;
        var w :| w in left;
        left := left - {w};
        Send(w, channel, failing, others(|sent|));
        OneMoreSend(sent, w, channel, failing, others);
        sent := sent + [w];
      }
    }
  }

  lemma BroadcastProperties(
      history: seq<Op>, sent: seq<nat>, channel: string, failing: set<nat>, others: nat -> seq<Call>)
    ensures var ops := BroadcastOps(sent, channel, failing, others);
      && (history + ops)[|history|..] == ops
      && Called(ops) == OthersOps(others, |sent|)
      && (forall w, c :: Unsubscribe(w, c, true) in ops <==> c == channel && w in sent && w in failing)
      && (forall w, c :: Untouched(OthersOps(others, |sent|), w, c) ==>
            (Subscribed(history + ops, w, c) <==>
              Subscribed(history, w, c) && !(c == channel && w in sent && w in failing)))
  {
    hide Subscribed, BroadcastOps, OthersOps, Called, Untouched;
    OthersHappen(sent, channel, failing, others);
    forall w, c { RemovalsAreFailures(sent, channel, failing, others, w, c); }
    forall w, c | Untouched(OthersOps(others, |sent|), w, c) {
      OthersAreSpared(history, sent, channel, failing, others, w, c);
    }
  }
}
