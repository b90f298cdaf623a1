/**
 The block protocol between a requester and a device: requests and replies are sealed under a
 32-bit sequence number, one counter per direction and end.
 */
module Remote {
  import opened Layout

  const SEQ_MOD: nat := 0x1_0000_0000

  function Next(n: nat): nat {
    (n + 1) % SEQ_MOD
  }

  datatype Cmd = GetTopo | GetBlock | PutBlock | GetBlocks | PutBlocks

  datatype Body<B> =
    | Nothing
    | Topo(did: nat, nblks: nat)
    | Id(b: nat)
    | IdData(b: nat, x: B)
    | Ids(ids: seq<nat>)
    | IdsData(pairs: seq<(nat, B)>)

  datatype Msg<B> = Msg(usr: nat, did: nat, cmd: Cmd, ack: bool, body: Body<B>)

  /** An encrypted packet: it opens only under the sequence number it was sealed with. */
  datatype Packet<B> = Sealed(num: nat, msg: Msg<B>)

  function Unseal<B>(p: Packet<B>, num: nat): Option<Msg<B>> {
    if p.num == num then Some(p.msg) else None
  }

  // ---- the device -------------------------------------------------------------------

  datatype Dev<B> = Dev(did: nat, store: seq<B>, send: nat, recv: nat)

  function StorePair<B>(s: seq<B>, p: (nat, B)): (r: seq<B>)
    ensures |r| == |s|
  {
    if p.0 < |s| then s[p.0 := p.1] else s
  }

  function StorePairs<B>(s: seq<B>, pairs: seq<(nat, B)>): (r: seq<B>)
    ensures |r| == |s|
  {
    if pairs == [] then s else StorePair(StorePairs(s, pairs[..|pairs| - 1]), pairs[|pairs| - 1])
  }

  /** Pair k is the last one for its block. */
  predicate LastFor<B>(pairs: seq<(nat, B)>, k: nat)
    requires k < |pairs|
  {
    forall j :: k < j < |pairs| ==> pairs[j].0 != pairs[k].0
  }

  /** Of several pairs for one block the last is what the block holds. */
  lemma {:induction false} StoredLast<B>(s: seq<B>, pairs: seq<(nat, B)>, k: nat)
    requires k < |pairs| && pairs[k].0 < |s| && LastFor(pairs, k)
    ensures StorePairs(s, pairs)[pairs[k].0] == pairs[k].1
  {
    var n := |pairs| - 1;
    if k < n {
      assert pairs[n].0 != pairs[k].0;
      StoredLast(s, pairs[..n], k);
    }
  }

  /** A block no pair names keeps its data. */
  lemma {:induction false} StoredNone<B>(s: seq<B>, pairs: seq<(nat, B)>, b: nat)
    requires b < |s| && forall k :: 0 <= k < |pairs| ==> pairs[k].0 != b
    ensures StorePairs(s, pairs)[b] == s[b]
  {
    if pairs != [] {
      StoredNone(s, pairs[..|pairs| - 1], b);
    }
  }

  function FirstOf<B>(pairs: seq<(nat, B)>): (r: seq<nat>)
    ensures |r| == |pairs| && forall i :: 0 <= i < |r| ==> r[i] == pairs[i].0
  {
    seq(|pairs|, i requires 0 <= i < |pairs| => pairs[i].0)
  }

  function Pairs<B>(s: seq<B>, ids: seq<nat>): (r: seq<(nat, B)>)
    requires forall i :: 0 <= i < |ids| ==> ids[i] < |s|
    ensures |r| == |ids| && forall i :: 0 <= i < |r| ==> r[i] == (ids[i], s[ids[i]])
  {
    seq(|ids|, i requires 0 <= i < |ids| => (ids[i], s[ids[i]]))
  }

  /** What a request does to the blocks, and the body of its reply; None where the device gives the
      request up. A single block out of range is acknowledged all the same. */
  function Perform<B>(did: nat, s: seq<B>, blank: B, m: Msg<B>): Option<(seq<B>, Body<B>)> {
    match m.cmd
    case GetTopo => if m.body.Nothing? then Some((s, Topo(did, |s|))) else None
    case GetBlock =>
      if !m.body.Id? || m.did != did then None
      else Some((s, IdData(m.body.b, if m.body.b < |s| then s[m.body.b] else blank)))
    case PutBlock =>
      if !m.body.IdData? || m.did != did then None
      else Some((StorePair(s, (m.body.b, m.body.x)), Id(m.body.b)))
    case GetBlocks =>
      if !m.body.Ids? || exists i :: 0 <= i < |m.body.ids| && m.body.ids[i] >= |s| then None
      else Some((s, IdsData(Pairs(s, m.body.ids))))
    case PutBlocks =>
      if !m.body.IdsData? || exists i :: 0 <= i < |m.body.pairs| && m.body.pairs[i].0 >= |s| then None
      else Some((StorePairs(s, m.body.pairs), Ids(FirstOf(m.body.pairs))))
  }

  /** processClientRequest: open, check, perform, reply. */
  function Serve<B>(d: Dev<B>, blank: B, p: Packet<B>): Option<(Dev<B>, Packet<B>)> {
    var m := Unseal(p, d.recv);
    if m.None? || m.value.usr != 1 || m.value.ack then None
    else
      var done := Perform(d.did, d.store, blank, m.value);
      if done.None? then None
      else
        var did := if m.value.cmd == GetTopo then d.did else m.value.did;
        Some((Dev(d.did, done.value.0, Next(d.send), Next(d.recv)),
              Sealed(d.send, Msg(m.value.usr, did, m.value.cmd, true, done.value.1))))
  }

  // ---- the requester ----------------------------------------------------------------

  datatype Ask<B> = AskGet(b: nat) | AskPut(b: nat, x: B) | AskGets(ids: seq<nat>) | AskPuts(pairs: seq<(nat, B)>)

  datatype Answer<B> = Got(x: B) | Stored | GotAll(pairs: seq<(nat, B)>) | StoredAll

  function Request<B>(did: nat, ask: Ask<B>): Msg<B> {
    match ask
    case AskGet(b) => Msg(1, did, GetBlock, false, Id(b))
    case AskPut(b, x) => Msg(1, did, PutBlock, false, IdData(b, x))
    case AskGets(ids) => Msg(1, did, GetBlocks, false, Ids(ids))
    case AskPuts(pairs) => Msg(1, did, PutBlocks, false, IdsData(pairs))
  }

  /** The checks on a reply; a batch must return exactly the ids asked for, in any order. */
  function Accept<B>(did: nat, ask: Ask<B>, m: Msg<B>): Option<Answer<B>> {
    if m.usr != 1 || !m.ack then None
    else
      match ask
      case AskGet(b) =>
        if m.did == did && m.cmd == GetBlock && m.body.IdData? && m.body.b == b then Some(Got(m.body.x)) else None
      case AskPut(b, x) =>
        if m.cmd == PutBlock && m.body == Id(b) then Some(Stored) else None
      case AskGets(ids) =>
        if m.did == did && m.cmd == GetBlocks && m.body.IdsData? && multiset(FirstOf(m.body.pairs)) == multiset(ids)
        then Some(GotAll(m.body.pairs)) else None
      case AskPuts(pairs) =>
        if m.cmd == PutBlocks && m.body.Ids? && multiset(m.body.ids) == multiset(FirstOf(pairs))
        then Some(StoredAll) else None
  }

  /** The manifest loop: ids are struck off the list of those asked for, one by one. */
  method CheckManifest(asked: seq<nat>, returned: seq<nat>) returns (ok: bool)
    requires |asked| == |returned|
    ensures ok <==> multiset(returned) == multiset(asked)
  {
    var manifest, i := asked, 0;
    while manifest != []
      invariant i <= |returned| && |manifest| + i == |returned|
      invariant multiset(manifest) + multiset(returned[..i]) == multiset(asked)
      decreases |manifest|
    {
      var j := IndexOf(manifest, returned[i]);
      assert returned[..i + 1] == returned[..i] + [returned[i]];
      if j == |manifest| {
        assert returned == returned[..i + 1] + returned[i + 1..];
        assert multiset(returned)[returned[i]] > multiset(asked)[returned[i]];
        return false;
      }
      assert manifest == manifest[..j] + [manifest[j]] + manifest[j + 1..];
      manifest := manifest[..j] + manifest[j + 1..];
      i := i + 1;
    }
    assert returned[..i] == returned;
    return true;
  }

  method IndexOf(s: seq<nat>, x: nat) returns (j: nat)
    ensures j <= |s| && (j < |s| ==> s[j] == x) && forall i :: 0 <= i < j ==> s[i] != x
  {
    j := 0;
    while j < |s| && s[j] != x
      invariant j <= |s| && forall i :: 0 <= i < j ==> s[i] != x
    {
      j := j + 1;
    }
  }

  // ---- one exchange refines one operation on an array of blocks ---------------------

  /** The four counters agree between requests. */
  ghost predicate InSync<B>(send: nat, recv: nat, d: Dev<B>) {
    send == d.recv && d.send == recv
  }

  /** The request is one the device can perform. */
  predicate Legal<B>(s: seq<B>, ask: Ask<B>) {
    match ask
    case AskGets(ids) => forall i :: 0 <= i < |ids| ==> ids[i] < |s|
    case AskPuts(pairs) => forall i :: 0 <= i < |pairs| ==> pairs[i].0 < |s|
    case _ => true
  }

  /** The same operation on a plain array. */
  function Plain<B>(s: seq<B>, blank: B, ask: Ask<B>): (seq<B>, Answer<B>)
    requires Legal(s, ask)
  {
    match ask
    case AskGet(b) => (s, Got(if b < |s| then s[b] else blank))
    case AskPut(b, x) => (StorePair(s, (b, x)), Stored)
    case AskGets(ids) => (s, GotAll(Pairs(s, ids)))
    case AskPuts(pairs) => (StorePairs(s, pairs), StoredAll)
  }

  lemma ExchangeRefines<B>(d: Dev<B>, blank: B, ask: Ask<B>)
    ensures Legal(d.store, ask) <==> Serve(d, blank, Sealed(d.recv, Request(d.did, ask))).Some?
    ensures Legal(d.store, ask) ==>
              var (d', reply) := Serve(d, blank, Sealed(d.recv, Request(d.did, ask))).value;
              && d'.store == Plain(d.store, blank, ask).0 && d'.did == d.did
              && d'.recv == Next(d.recv) && d'.send == Next(d.send)
              && reply.num == d.send && Accept(d.did, ask, reply.msg) == Some(Plain(d.store, blank, ask).1)
  {
    if ask.AskGets? && Legal(d.store, ask) {
      assert FirstOf(Pairs(d.store, ask.ids)) == ask.ids;
    }
  }

  /** The message asks the device for this. Batches carry a device number too, which nothing looks at. */
  ghost predicate Asks<B>(d: Dev<B>, m: Msg<B>, ask: Ask<B>) {
    m == Request(m.did, ask) && (ask.AskGet? || ask.AskPut? ==> m.did == d.did)
  }

  /** Of all packets there can be, the device serves exactly those sealed under the number it expects that ask for
      its topology or for something it can do; it then does that to its blocks. */
  lemma ServedIff<B(!new)>(d: Dev<B>, blank: B, p: Packet<B>)
    ensures Serve(d, blank, p).Some? <==>
            && p.num == d.recv
            && (p.msg == Msg(1, p.msg.did, GetTopo, false, Nothing)
                || exists ask :: Asks(d, p.msg, ask) && Legal(d.store, ask))
    ensures Serve(d, blank, p).Some? ==>
              forall ask :: Asks(d, p.msg, ask) && Legal(d.store, ask) ==>
                              Serve(d, blank, p).value.0.store == Plain(d.store, blank, ask).0
  {
    var m := p.msg;
    if Serve(d, blank, p).Some? {
      match m.cmd
      case GetTopo =>
      case GetBlock => assert Asks(d, m, AskGet(m.body.b));
      case PutBlock => assert Asks(d, m, AskPut(m.body.b, m.body.x));
      case GetBlocks => assert Asks(d, m, AskGets(m.body.ids));
      case PutBlocks => assert Asks(d, m, AskPuts(m.body.pairs));
    }
  }

  /** The blocks a body names. */
  function Named<B>(body: Body<B>): seq<nat> {
    match body
    case Id(b) => [b]
    case IdData(b, _) => [b]
    case Ids(ids) => ids
    case IdsData(pairs) => FirstOf(pairs)
    case _ => []
  }

  predicate SameBlocks(a: seq<nat>, b: seq<nat>) {
    multiset(a) == multiset(b)
  }

  /** A reply is taken exactly when it acknowledges the same command to the same user about the same blocks, with
      data if that was asked for, and then from the device asked. */
  lemma AcceptedIff<B>(did: nat, ask: Ask<B>, m: Msg<B>)
    ensures Accept(did, ask, m).Some? <==>
            && m.usr == 1 && m.ack && m.cmd == Request(did, ask).cmd
            && Carries(ask, m.body) && (ask.AskGet? || ask.AskGets? ==> m.did == did)
            && SameBlocks(Named(m.body), Named(Request(did, ask).body))
  {
    hide SameBlocks, FirstOf;
    if Carries(ask, m.body) {
      match ask
      case AskGet(b) => OneBlock(m.body.b, b);
      case AskPut(b, _) => OneBlock(m.body.b, b);
      case AskGets(ids) => SameMeans(FirstOf(m.body.pairs), ids);
      case AskPuts(pairs) => SameMeans(m.body.ids, FirstOf(pairs));
    }
  }

  lemma OneBlock(a: nat, b: nat)
    ensures SameBlocks([a], [b]) <==> a == b
  {
    assert multiset([a])[a] == 1;
  }

  lemma SameMeans(a: seq<nat>, b: seq<nat>)
    ensures SameBlocks(a, b) <==> multiset(a) == multiset(b)
  {
  }

  /** Data comes back for what was asked for, block numbers for what was sent. */
  predicate Carries<B>(ask: Ask<B>, body: Body<B>) {
    match ask
    case AskGet(_) => body.IdData?
    case AskPut(_, _) => body.Id?
    case AskGets(_) => body.IdsData?
    case AskPuts(_) => body.Ids?
  }

  /** A put followed by a get of the same block returns the data put; other blocks keep theirs. */
  lemma PutGet<B>(s: seq<B>, blank: B, b: nat, x: B, c: nat)
    requires b < |s| && c < |s|
    ensures Plain(Plain(s, blank, AskPut(b, x)).0, blank, AskGet(c)).1 == Got(if c == b then x else s[c])
  {
  }

  /** A batch put followed by a batch get of the same blocks, none named twice, returns the pairs put. */
  lemma PutsGets<B>(s: seq<B>, blank: B, pairs: seq<(nat, B)>)
    requires Legal(s, AskPuts(pairs)) && forall i, j :: 0 <= i < j < |pairs| ==> pairs[i].0 != pairs[j].0
    ensures Legal(Plain(s, blank, AskPuts(pairs)).0, Ask<B>.AskGets(FirstOf(pairs)))
    ensures Plain(Plain(s, blank, AskPuts(pairs)).0, blank, AskGets(FirstOf(pairs))).1 == GotAll(pairs)
  {
    var back := Pairs(StorePairs(s, pairs), FirstOf(pairs));
    forall k: nat | k < |pairs| ensures back[k] == pairs[k] {
      StoredLast(s, pairs, k);
    }
    assert back == pairs;
  }

  // ---- the two ends as objects ------------------------------------------------------

  class NetworkDevice<B> {
    const did: nat
    const blank: B
    var store: seq<B>
    var send: nat
    var recv: nat

    ghost function State(): Dev<B>
      reads this
    {
      Dev(did, store, send, recv)
    }

    constructor (did: nat, store: seq<B>, blank: B)
      ensures State() == Dev(did, store, 0, 0)
    {
      this.did, this.store, this.blank, this.send, this.recv := did, store, blank, 0, 0;
    }

    /** processClientRequest; None when the request is given up, with no block changed. */
    method Process(p: Packet<B>) returns (r: Option<Packet<B>>)
      modifies this
      ensures var want := Serve(old(State()), blank, p);
              if want.Some? then State() == want.value.0 && r == Some(want.value.1) else r.None? && store == old(store)
    {
      var m := Unseal(p, recv);
      if m.None? || m.value.usr != 1 || m.value.ack {
        return None;
      }
      recv := (recv + 1) % SEQ_MOD;
      var req := m.value;
      var rdid, body := req.did, req.body;
      match req.cmd {
        case GetTopo =>
          if !req.body.Nothing? { return None; }
          rdid := did;
          body := Topo(did, |store|);
        case GetBlock =>
          if !req.body.Id? || req.did != did { return None; }
          body := IdData(req.body.b, if req.body.b < |store| then store[req.body.b] else blank);
        case PutBlock =>
          if !req.body.IdData? || req.did != did { return None; }
          if req.body.b < |store| {
            store := store[req.body.b := req.body.x];
          }
          body := Id(req.body.b);
        case GetBlocks =>
          if !req.body.Ids? { return None; }
          var ok, pairs := FetchAll(req.body.ids);
          if !ok { return None; }
          body := IdsData(pairs);
        case PutBlocks =>
          if !req.body.IdsData? { return None; }
          var ok, ids := StoreAll(req.body.pairs);
          if !ok { return None; }
          body := Ids(ids);
      }
      r := Some(Sealed(send, Msg(req.usr, rdid, req.cmd, true, body)));
      send := (send + 1) % SEQ_MOD;
    }

    method FetchAll(ids: seq<nat>) returns (ok: bool, pairs: seq<(nat, B)>)
      ensures ok <==> forall i :: 0 <= i < |ids| ==> ids[i] < |store|
      ensures ok ==> pairs == Pairs(store, ids)
    {
      pairs := [];
      var i := 0;
      while i < |ids|
        invariant i <= |ids| && |pairs| == i
        invariant forall j :: 0 <= j < i ==> ids[j] < |store| && pairs[j] == (ids[j], store[ids[j]])
      {
        if ids[i] >= |store| {
          return false, pairs;
        }
        pairs := pairs + [(ids[i], store[ids[i]])];
        i := i + 1;
      }
      ok := true;
    }

    method StoreAll(pairs: seq<(nat, B)>) returns (ok: bool, ids: seq<nat>)
      modifies this`store
      ensures ok <==> forall i :: 0 <= i < |pairs| ==> pairs[i].0 < |old(store)|
      ensures ok ==> store == StorePairs(old(store), pairs) && ids == FirstOf(pairs)
      ensures !ok ==> store == old(store)
    {
      ids := [];
      var s, i := store, 0;
      while i < |pairs|
        invariant i <= |pairs| && |ids| == i && |s| == |store|
        invariant s == StorePairs(store, pairs[..i]) && store == old(store)
        invariant forall j :: 0 <= j < i ==> ids[j] == pairs[j].0 < |store|
      {
        if pairs[i].0 >= |store| {
          return false, ids;
        }
        assert pairs[..i + 1][..i] == pairs[..i];
        s := s[pairs[i].0 := pairs[i].1];
        ids := ids + [pairs[i].0];
        i := i + 1;
      }
      assert pairs[..i] == pairs;
      store := s;
      ok := true;
    }
  }

  class RemoteDevice<B(==)> {
    const did: nat
    const numBlocks: nat
    var send: nat
    var recv: nat

    /** bfsDeviceInitialize: the first exchange asks a device that has just started for its topology. */
    constructor (dev: NetworkDevice<B>)
      requires dev.send == 0 && dev.recv == 0
      modifies dev
      ensures Linked(dev) && numBlocks == |dev.store| && dev.store == old(dev.store)
    {
      var reply := dev.Process(Sealed(0, Msg(1, 0, GetTopo, false, Nothing)));
      var topo := reply.value.msg.body;
      did, numBlocks, send, recv := topo.did, topo.nblks, 1, 1;
    }

    ghost predicate Linked(dev: NetworkDevice<B>)
      reads this, dev
    {
      did == dev.did && InSync(send, recv, dev.State())
    }

    /** One request and its reply over a transport that does not fail. */
    method Submit(dev: NetworkDevice<B>, ask: Ask<B>) returns (m: Option<Msg<B>>)
      requires Linked(dev)
      modifies this, dev
      ensures m.Some? <==> Legal(old(dev.store), ask)
      ensures m.None? ==> dev.store == old(dev.store)
      ensures m.Some? ==> && Linked(dev) && dev.store == Plain(old(dev.store), dev.blank, ask).0
                          && Accept(did, ask, m.value) == Some(Plain(old(dev.store), dev.blank, ask).1)
    {
      ExchangeRefines(dev.State(), dev.blank, ask);
      var p := Sealed(send, Request(did, ask));
      send := (send + 1) % SEQ_MOD;
      var reply := dev.Process(p);
      if reply.None? {
        return None;
      }
      m := Unseal(reply.value, recv);
      recv := (recv + 1) % SEQ_MOD;
    }

    method GetBlock(dev: NetworkDevice<B>, b: nat) returns (r: Option<B>)
      requires Linked(dev)
      modifies this, dev
      ensures Linked(dev) && dev.store == old(dev.store)
      ensures r == Some(if b < |old(dev.store)| then old(dev.store)[b] else dev.blank)
    {
      var m := Submit(dev, AskGet(b));
      if m.None? || m.value.usr != 1 || m.value.did != did || m.value.cmd != Cmd.GetBlock || !m.value.ack
         || !m.value.body.IdData? {
        return None;
      }
      if m.value.body.b != b {
        return None;
      }
      return Some(m.value.body.x);
    }

    method PutBlock(dev: NetworkDevice<B>, b: nat, x: B) returns (ok: bool)
      requires Linked(dev)
      modifies this, dev
      ensures ok && Linked(dev)
      ensures dev.store == if b < |old(dev.store)| then old(dev.store)[b := x] else old(dev.store)
    {
      var m := Submit(dev, AskPut(b, x));
      ok := m.Some? && m.value.usr == 1 && m.value.cmd == Cmd.PutBlock && m.value.ack && m.value.body.Id?
            && m.value.body.b == b;
    }

    method PutBlocks(dev: NetworkDevice<B>, pairs: seq<(nat, B)>) returns (ok: bool)
      requires Linked(dev)
      modifies this, dev
      ensures ok <==> forall i :: 0 <= i < |pairs| ==> pairs[i].0 < |old(dev.store)|
      ensures dev.store == if ok then StorePairs(old(dev.store), pairs) else old(dev.store)
      ensures ok ==> forall k: nat :: k < |pairs| && LastFor(pairs, k) ==> dev.store[pairs[k].0] == pairs[k].1
      ensures ok ==> Linked(dev)
    {
      forall k: nat | k < |pairs| && pairs[k].0 < |dev.store| && LastFor(pairs, k)
        ensures StorePairs(dev.store, pairs)[pairs[k].0] == pairs[k].1
      {
        StoredLast(dev.store, pairs, k);
      }
      var m := Submit(dev, AskPuts(pairs));
      if m.None? || m.value.usr != 1 || m.value.cmd != Cmd.PutBlocks || !m.value.ack || !m.value.body.Ids? {
        return false;
      }
      BatchSize(m.value.body.ids, FirstOf(pairs));
      ok := CheckManifest(FirstOf(pairs), m.value.body.ids);
    }

    method GetBlocks(dev: NetworkDevice<B>, ids: seq<nat>) returns (r: Option<seq<(nat, B)>>)
      requires Linked(dev)
      modifies this, dev
      ensures dev.store == old(dev.store)
      ensures r.Some? <==> forall i :: 0 <= i < |ids| ==> ids[i] < |dev.store|
      ensures r.Some? ==> Linked(dev) && r.value == Pairs(dev.store, ids)
    {
      var m := Submit(dev, AskGets(ids));
      if m.None? || m.value.usr != 1 || m.value.did != did || m.value.cmd != Cmd.GetBlocks || !m.value.ack
         || !m.value.body.IdsData? {
        return None;
      }
      BatchSize(FirstOf(m.value.body.pairs), ids);
      var ok := CheckManifest(ids, FirstOf(m.value.body.pairs));
      if !ok {
        return None;
      }
      return Some(m.value.body.pairs);
    }
  }

  lemma BatchSize(a: seq<nat>, b: seq<nat>)
    ensures multiset(a) == multiset(b) ==> |a| == |b|
  {
    assert |multiset(a)| == |a| && |multiset(b)| == |b|;
  }
}
