/**
 Runs of the block protocol over a transport that may deliver any packet it has ever carried, any
 number of times, to either end: replays and reflections are part of every run.
 */
module RemoteRuns {
  import opened Layout
  import opened Remote

  /** Requests and replies so far; packet i of either direction was sealed under number (base + i) mod 2^32. */
  datatype Sys<B> = Sys(
    did: nat, blank: B, base: nat, initial: seq<B>,
    dev: Dev<B>, send: nat, recv: nat,
    sent: seq<Ask<B>>, replies: seq<Msg<B>>, taken: seq<Answer<B>>)

  datatype Event<B> =
    | Send(ask: Ask<B>)                          // the requester starts a request
    | ToDevice(isReply: bool, i: nat)            // packet i of a direction reaches the device
    | ToRequester(isReply: bool, i: nat)         // ... or the requester

  function Num(base: nat, i: nat): nat {
    (base + i) % SEQ_MOD
  }

  /** A packet the transport has carried. */
  function Carried<B>(s: Sys<B>, isReply: bool, i: nat): Option<Packet<B>> {
    if isReply then
      if i < |s.replies| then Some(Sealed(Num(s.base, i), s.replies[i])) else None
    else
    if i < |s.sent| then Some(Sealed(Num(s.base, i), Request(s.did, s.sent[i]))) else None
  }

  function Step<B>(s: Sys<B>, e: Event<B>): Sys<B> {
    match e
    case Send(ask) =>
      if |s.sent| != |s.taken| then s
      else s.(sent := s.sent + [ask], send := Next(s.send))
    case ToDevice(isReply, i) =>
      var p := Carried(s, isReply, i);
      if p.None? then s
      else
        var r := Serve(s.dev, s.blank, p.value);
        if r.None? then s else s.(dev := r.value.0, replies := s.replies + [r.value.1.msg])
    case ToRequester(isReply, i) =>
      var p := Carried(s, isReply, i);
      if p.None? || |s.sent| == 0 || |s.sent| == |s.taken| then s
      else
        var m := Unseal(p.value, s.recv);
        if m.None? then s
        else
          var a := Accept(s.did, s.sent[|s.sent| - 1], m.value);
          if a.None? then s else s.(taken := s.taken + [a.value], recv := Next(s.recv))
  }

  /** The plain array after a sequence of operations. */
  function StoreAfter<B>(s0: seq<B>, blank: B, asks: seq<Ask<B>>): seq<B> {
    if asks == [] then s0
    else
      var s := StoreAfter(s0, blank, asks[..|asks| - 1]);
      if Legal(s, asks[|asks| - 1]) then Plain(s, blank, asks[|asks| - 1]).0 else s
  }

  /** Operation k was performed, and m and a are its reply and answer on the plain array. */
  ghost predicate Right<B>(s: Sys<B>, k: nat) {
    && k < |s.sent| && k < |s.replies|
    && var store := StoreAfter(s.initial, s.blank, s.sent[..k]);
    && Legal(store, s.sent[k])
    && s.replies[k].ack && Accept(s.did, s.sent[k], s.replies[k]) == Some(Plain(store, s.blank, s.sent[k]).1)
    && (k < |s.taken| ==> s.taken[k] == Plain(store, s.blank, s.sent[k]).1)
  }

  ghost predicate Inv<B>(s: Sys<B>) {
    && |s.taken| <= |s.replies| <= |s.sent| <= |s.taken| + 1
    && s.send == Num(s.base, |s.sent|) && s.recv == Num(s.base, |s.taken|)
    && s.dev.recv == Num(s.base, |s.replies|) && s.dev.send == Num(s.base, |s.replies|)
    && s.dev.did == s.did && s.dev.store == StoreAfter(s.initial, s.blank, s.sent[..|s.replies|])
    && forall k: nat :: k < |s.replies| ==> Right(s, k)
  }

  lemma NumUnique(base: nat, i: nat, j: nat)
    requires i < SEQ_MOD && j < SEQ_MOD && Num(base, i) == Num(base, j)
    ensures i == j
  {
  }

  lemma NumNext(base: nat, i: nat)
    ensures Next(Num(base, i)) == Num(base, i + 1)
  {
  }

  /** Of all packets ever carried the device takes only the request it has not served yet. */
  lemma DeviceTakes<B>(s: Sys<B>, isReply: bool, i: nat)
    requires Inv(s) && |s.sent| < SEQ_MOD && Carried(s, isReply, i).Some?
    requires Serve(s.dev, s.blank, Carried(s, isReply, i).value).Some?
    ensures !isReply && i == |s.replies| < |s.sent|
  {
    assert isReply ==> Right(s, i);
    if !isReply {
      NumUnique(s.base, i, |s.replies|);
    }
  }

  /** The next request, served: no bound on the number of requests is needed for this one. */
  lemma DeviceServes<B>(s: Sys<B>)
    requires Inv(s) && |s.replies| < |s.sent|
    ensures var t := Step(s, ToDevice(false, |s.replies|));
            && Inv(t) && t == s.(dev := t.dev, replies := t.replies)
            && (Legal(s.dev.store, s.sent[|s.replies|]) ==> |t.replies| == |s.replies| + 1)
  {
    var n := |s.replies|;
    var t := Step(s, ToDevice(false, n));
    ExchangeRefines(s.dev, s.blank, s.sent[n]);
    NumNext(s.base, n);
    assert s.sent[..n + 1][..n] == s.sent[..n];
    forall k: nat | k < |t.replies| ensures Right(t, k) {
      if k < n { assert Right(s, k); }
    }
  }

  lemma DeviceKeeps<B>(s: Sys<B>, isReply: bool, i: nat)
    requires Inv(s) && |s.sent| < SEQ_MOD
    ensures Inv(Step(s, ToDevice(isReply, i)))
  {
    var p := Carried(s, isReply, i);
    if p.Some? && Serve(s.dev, s.blank, p.value).Some? {
      DeviceTakes(s, isReply, i);
      DeviceServes(s);
    }
  }

  /** The reply to the request in flight, taken. */
  lemma RequesterTakes<B>(s: Sys<B>)
    requires Inv(s) && |s.taken| < |s.replies|
    ensures var t := Step(s, ToRequester(true, |s.taken|));
            Inv(t) && t == s.(taken := t.taken, recv := t.recv) && |t.taken| == |s.taken| + 1
  {
    hide Serve, StoreAfter, Plain, Legal, Accept, Request;
    var n := |s.taken|;
    var t := Step(s, ToRequester(true, n));
    assert Right(s, n);
    NumNext(s.base, n);
    forall k: nat | k < |t.replies| ensures Right(t, k) {
      assert Right(s, k);
    }
  }

  lemma RequesterKeeps<B>(s: Sys<B>, isReply: bool, i: nat)
    requires Inv(s) && |s.sent| < SEQ_MOD
    ensures Inv(Step(s, ToRequester(isReply, i)))
  {
    if Step(s, ToRequester(isReply, i)) != s && isReply {
      NumUnique(s.base, i, |s.taken|);
      RequesterTakes(s);
    }
  }

  lemma SendKeeps<B>(s: Sys<B>, ask: Ask<B>)
    requires Inv(s)
    ensures Inv(Step(s, Send(ask)))
  {
    var t := Step(s, Send(ask));
    if t != s {
      NumNext(s.base, |s.sent|);
      assert t.sent[..|s.replies|] == s.sent[..|s.replies|];
      forall k: nat | k < |t.replies| ensures Right(t, k) {
        assert Right(s, k);
        assert t.sent[..k] == s.sent[..k];
      }
    }
  }

  function Run<B>(s: Sys<B>, es: seq<Event<B>>): Sys<B> {
    if es == [] then s else Step(Run(s, es[..|es| - 1]), es[|es| - 1])
  }

  /** In every run of fewer than 2^32 requests the counters differ by at most the message in flight,
      requests are served once each and in order, and the k-th answer the requester accepts is the
      one a plain array of blocks would give. */
  lemma {:induction false} RunKeeps<B>(s: Sys<B>, es: seq<Event<B>>)
    requires Inv(s) && |Run(s, es).sent| < SEQ_MOD
    ensures Inv(Run(s, es))
  {
    if es != [] {
      var t, e := Run(s, es[..|es| - 1]), es[|es| - 1];
      assert |t.sent| <= |Step(t, e).sent|;
      RunKeeps(s, es[..|es| - 1]);
      match e
      case Send(ask) => SendKeeps(t, ask);
      case ToDevice(isReply, i) => DeviceKeeps(t, isReply, i);
      case ToRequester(isReply, i) => RequesterKeeps(t, isReply, i);
    }
  }

  /** A link that has just been set up. */
  function Fresh<B>(did: nat, blank: B, store: seq<B>, base: nat): (s: Sys<B>)
    ensures Inv(s)
  {
    Sys(did, blank, base, store, Dev(did, store, Num(base, 0), Num(base, 0)), Num(base, 0), Num(base, 0), [], [], [])
  }

  // ---- the bound is exact -----------------------------------------------------------

  /** Request k sent, served and answered, one after the other. */
  function Exchange<B>(ask: Ask<B>, k: nat): seq<Event<B>> {
    [Send(ask), ToDevice(false, k), ToRequester(true, k)]
  }

  /** The run in which the transport delivers every packet once and in order. */
  function Honest<B>(asks: seq<Ask<B>>): seq<Event<B>> {
    if asks == [] then [] else Honest(asks[..|asks| - 1]) + Exchange(asks[|asks| - 1], |asks| - 1)
  }

  /** Every request is one the device can perform when its turn comes. */
  ghost predicate AllLegal<B>(store: seq<B>, blank: B, asks: seq<Ask<B>>) {
    forall k :: 0 <= k < |asks| ==> Legal(StoreAfter(store, blank, asks[..k]), asks[k])
  }

  lemma RunThree<B>(s: Sys<B>, es: seq<Event<B>>, a: Event<B>, b: Event<B>, c: Event<B>)
    ensures Run(s, es + [a, b, c]) == Step(Step(Step(Run(s, es), a), b), c)
  {
    hide Step;
    RunOne(s, es, a);
    RunOne(s, es + [a], b);
    RunOne(s, es + [a] + [b], c);
    assert es + [a, b, c] == es + [a] + [b] + [c];
  }

  lemma RunOne<B>(s: Sys<B>, es: seq<Event<B>>, e: Event<B>)
    ensures Run(s, es + [e]) == Step(Run(s, es), e)
  {
    hide Step;
    assert (es + [e])[..|es|] == es;
  }

  /** Between exchanges: everything sent has been answered. */
  ghost predicate Idle<B>(s: Sys<B>, f: Sys<B>, asks: seq<Ask<B>>) {
    && Inv(s) && s.sent == asks && |s.replies| == |s.taken| == |asks|
    && s.did == f.did && s.blank == f.blank && s.base == f.base && s.initial == f.initial
  }

  lemma ExchangeIdle<B>(s: Sys<B>, f: Sys<B>, asks: seq<Ask<B>>, ask: Ask<B>)
    requires Idle(s, f, asks) && Legal(StoreAfter(f.initial, f.blank, asks), ask)
    ensures var k := |asks|;
            Idle(Step(Step(Step(s, Send(ask)), ToDevice(false, k)), ToRequester(true, k)), f, asks + [ask])
  {
    hide Inv;
    var k := |asks|;
    var t := Step(s, Send(ask));
    SendKeeps(s, ask);
    var u := Step(t, ToDevice(false, k));
    StoreIs(t);
    assert t.sent[..k] == asks;
    DeviceServes(t);
    RequesterTakes(u);
  }

  lemma StoreIs<B>(s: Sys<B>)
    requires Inv(s)
    ensures |s.replies| <= |s.sent| && s.dev.store == StoreAfter(s.initial, s.blank, s.sent[..|s.replies|])
  {
  }

  lemma EmptyRun<B>(f: Sys<B>)
    ensures Run(f, []) == f
  {
  }

  /** However many requests there are, the honest run performs and answers them all. */
  lemma {:induction false} HonestRun<B>(f: Sys<B>, asks: seq<Ask<B>>)
    requires Idle(f, f, []) && AllLegal(f.initial, f.blank, asks)
    ensures Idle(Run(f, Honest(asks)), f, asks)
  {
    hide Inv, Idle, Run, Step, StoreAfter, Legal;
    EmptyRun(f);
    if asks != [] {
      var n := |asks| - 1;
      forall k | 0 <= k < n ensures Legal(StoreAfter(f.initial, f.blank, asks[..n][..k]), asks[..n][k]) {
        assert asks[..n][..k] == asks[..k];
      }
      HonestRun(f, asks[..n]);
      var s := Run(f, Honest(asks[..n]));
      ExchangeIdle(s, f, asks[..n], asks[n]);
      RunThree(f, Honest(asks[..n]), Send(asks[n]), ToDevice(false, n), ToRequester(true, n));
      assert asks[..n] + [asks[n]] == asks;
    }
  }

  /** x put at block 0, then y put there n - 1 times. */
  function Puts<B>(x: B, y: B, n: nat): (r: seq<Ask<B>>)
    ensures |r| == n && forall k :: 0 <= k < n ==> r[k] == AskPut(0, if k == 0 then x else y)
  {
    seq(n, k => AskPut(0, if k == 0 then x else y))
  }

  lemma {:induction false} PutsStore<B>(store: seq<B>, blank: B, x: B, y: B, n: nat, k: nat)
    requires |store| > 0 && k <= n
    ensures StoreAfter(store, blank, Puts(x, y, n)[..k]) ==
            if k == 0 then store else store[0 := if k == 1 then x else y]
  {
    if k > 0 {
      PutsStore(store, blank, x, y, n, k - 1);
      assert Puts(x, y, n)[..k][..k - 1] == Puts(x, y, n)[..k - 1];
    }
  }

  /** Below 2^32 served requests the first one no longer opens. */
  lemma FirstStaysShut<B>(s: Sys<B>)
    requires Inv(s) && 0 < |s.replies| < SEQ_MOD
    ensures Serve(s.dev, s.blank, Carried(s, false, 0).value).None?
  {
    if Num(s.base, 0) == Num(s.base, |s.replies|) {
      NumUnique(s.base, 0, |s.replies|);
    }
  }

  /** The bound is exact. From a fresh link the honest run of 2^32 puts to block 0, the first of x and the
      others of y, leaves y there with all invariants in place. The very first packet, delivered again, is
      then performed again: the block holds x, which no request asked for since, and the invariants fail. */
  lemma FirstServedAgain<B>(did: nat, blank: B, store: seq<B>, base: nat, x: B, y: B)
    requires |store| > 0 && x != y
    ensures var asks := Puts(x, y, SEQ_MOD);
            var s := Run(Fresh(did, blank, store, base), Honest(asks));
            var t := Step(s, ToDevice(false, 0));
            && Inv(s) && s.sent == asks && |s.replies| == SEQ_MOD && s.dev.store == store[0 := y]
            && |t.replies| == SEQ_MOD + 1 && t.dev.store == store[0 := x] && !Inv(t)
            && t.dev.store != StoreAfter(store, blank, t.sent)
  {
    hide Run, Honest;
    var f, asks := Fresh(did, blank, store, base), Puts(x, y, SEQ_MOD);
    forall k | 0 <= k < |asks| ensures Legal(StoreAfter(store, blank, asks[..k]), asks[k]) {
    }
    HonestRun(f, asks);
    var s := Run(f, Honest(asks));
    PutsStore(store, blank, x, y, SEQ_MOD, SEQ_MOD);
    assert asks[..SEQ_MOD] == asks;
    assert Num(base, SEQ_MOD) == Num(base, 0);
    assert store[0 := x][0] != store[0 := y][0];
  }
}
