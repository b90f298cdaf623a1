/** Length-prefixed messages over a byte stream that may split every read and write. */
module Framing {
  import opened Layout
  import opened Codec

  type Message = seq<Byte>

  const MAX_MESSAGE: nat := 0x7fff_ffff

  /** Network byte order. */
  function Be(w: nat, v: nat): (s: seq<Byte>)
    ensures |s| == w
  {
    if w == 0 then [] else Be(w - 1, v / 256) + [v % 256]
  }

  function FromBe(s: seq<Byte>): nat {
    if s == [] then 0 else 256 * FromBe(s[..|s| - 1]) + s[|s| - 1]
  }

  lemma {:induction false} BeRoundTrip(w: nat, v: nat)
    requires v < Pow256(w)
    ensures FromBe(Be(w, v)) == v
  {
    if w > 0 {
      BeRoundTrip(w - 1, v / 256);
      assert Be(w, v)[..w - 1] == Be(w - 1, v / 256);
    }
  }

  /** Byte k of the field is a digit in base 256: the high one first. */
  lemma {:induction false} BeByte(w: nat, v: nat, k: nat)
    requires k < w
    ensures Be(w, v)[k] == v / Pow256(w - 1 - k) % 256
  {
    if k < w - 1 {
      BeByte(w - 1, v / 256, k);
      DivTwice(v, Pow256(w - 2 - k));
    }
  }

  predicate Sendable(m: Message) {
    1 <= |m| <= MAX_MESSAGE
  }

  function Header(len: nat): (s: seq<Byte>)
    ensures |s| == 4
  {
    Be(4, len)
  }

  function Frame(m: Message): seq<Byte> {
    Header(|m|) + m
  }

  /** All frames of a sequence of messages, as they go over the wire. */
  function Frames(ms: seq<Message>): seq<Byte> {
    if ms == [] then [] else Frames(ms[..|ms| - 1]) + Frame(ms[|ms| - 1])
  }

  lemma {:induction false} FramesSplit(ms: seq<Message>, k: nat)
    requires k <= |ms|
    ensures Frames(ms) == Frames(ms[..k]) + Frames(ms[k..])
  {
    hide Frame;
    if k == |ms| {
      assert ms[..k] == ms;
    } else {
      var n := |ms| - 1;
      FramesSplit(ms[..n], k);
      assert ms[..n][..k] == ms[..k] && ms[..n][k..] == ms[k..][..n - k];
    }
  }

  lemma FramesOne(m: Message)
    ensures Frames([m]) == Frame(m)
  {
    var one: seq<Message> := [m];
    assert Frames(one[..0]) == [];
    assert one[0] == m;
  }

  lemma FramesHead(ms: seq<Message>)
    requires ms != []
    ensures Frames(ms) == Frame(ms[0]) + Frames(ms[1..])
  {
    hide Frame;
    FramesSplit(ms, 1);
    FramesOne(ms[0]);
    assert ms[..1] == [ms[0]];
  }

  /** The stream as what precedes message k, its frame, and the rest. */
  lemma FramesNext(ms: seq<Message>, k: nat)
    requires k < |ms|
    ensures Frames(ms) == Frames(ms[..k]) + (Frame(ms[k]) + Frames(ms[k + 1..]))
  {
    hide Frame, Frames;
    FramesSplit(ms, k);
    FramesHead(ms[k..]);
    assert ms[k..][1..] == ms[k + 1..] && ms[k..][0] == ms[k];
  }

  lemma FramesSnoc(ms: seq<Message>, m: Message)
    ensures Frames(ms + [m]) == Frames(ms) + Frame(m)
  {
    hide Frame;
    assert (ms + [m])[..|ms|] == ms;
  }

  // ---- the receiving side, one read at a time ---------------------------------------

  /** Messages completed, then the header and body bytes of the one being read. */
  datatype Rx = Rx(out: seq<Message>, head: seq<Byte>, got: seq<Byte>)

  predicate InHeader(rx: Rx) {
    |rx.head| < 4
  }

  /** How many bytes the next read asks for. */
  function Wanted(rx: Rx): int {
    if InHeader(rx) then 4 - |rx.head| else FromBe(rx.head) - |rx.got|
  }

  /** A read has returned chunk. */
  function Feed(rx: Rx, chunk: seq<Byte>): Rx {
    if InHeader(rx) then rx.(head := rx.head + chunk)
    else if |rx.got| + |chunk| == FromBe(rx.head) then Rx(rx.out + [rx.got + chunk], [], [])
    else rx.(got := rx.got + chunk)
  }

  /** Every way the transport can split the stream: each read returns at least one byte and at most
      what it asked for. */
  predicate Possible(rx: Rx, chunks: seq<seq<Byte>>)
    decreases |chunks|
  {
    chunks != [] ==> 1 <= |chunks[0]| <= Wanted(rx) && Possible(Feed(rx, chunks[0]), chunks[1..])
  }

  function FeedAll(rx: Rx, chunks: seq<seq<Byte>>): Rx
    decreases |chunks|
  {
    if chunks == [] then rx else FeedAll(Feed(rx, chunks[0]), chunks[1..])
  }

  function Flat(chunks: seq<seq<Byte>>): seq<Byte> {
    if chunks == [] then [] else chunks[0] + Flat(chunks[1..])
  }

  /** The receiver has read a prefix of the stream of ms and is where that prefix ends. */
  ghost predicate Tracks(rx: Rx, ms: seq<Message>) {
    && |rx.out| <= |ms| && rx.out == ms[..|rx.out|]
    && |rx.head| <= 4 && (InHeader(rx) ==> rx.got == [])
    && if |rx.out| == |ms| then rx.head == []
       else
         var m := ms[|rx.out|];
         && rx.head <= Header(|m|)
         && (!InHeader(rx) ==> |rx.got| < |m| && rx.got <= m)
  }

  /** Bytes read so far. */
  function Read(rx: Rx): seq<Byte> {
    Frames(rx.out) + (rx.head + rx.got)
  }

  lemma HeaderSays(m: Message)
    requires |m| <= MAX_MESSAGE
    ensures FromBe(Header(|m|)) == |m|
  {
    assert Pow256(4) == 256 * (256 * (256 * 256)) by {
      assert Pow256(3) == 256 * Pow256(2) && Pow256(2) == 256 * Pow256(1) && Pow256(1) == 256;
    }
    BeRoundTrip(4, |m|);
  }

  lemma PrefixTail(a: seq<Byte>, b: seq<Byte>, c: seq<Byte>)
    requires a + b <= a + c
    ensures b <= c
  {
    assert forall i :: 0 <= i < |b| ==> b[i] == (a + b)[|a| + i] == (a + c)[|a| + i] == c[i];
  }

  /** One read keeps the receiver on the stream. */
  lemma FeedTracks(rx: Rx, ms: seq<Message>, chunk: seq<Byte>)
    requires Tracks(rx, ms) && 1 <= |chunk| <= Wanted(rx) && Read(rx) + chunk <= Frames(ms)
    requires forall k :: 0 <= k < |ms| ==> Sendable(ms[k])
    ensures Tracks(Feed(rx, chunk), ms) && Read(Feed(rx, chunk)) == Read(rx) + chunk
  {
    hide Header, Frame, FromBe, Frames, Tracks, Read, Feed;
    MoreToCome(rx, ms, chunk);
    var m := ms[|rx.out|];
    OnStream(rx, ms, chunk);
    if InHeader(rx) {
      HeaderRead(rx, ms, m, chunk, Frames(ms[|rx.out| + 1..]));
    } else {
      HeaderSays(m);
      HeaderKnown(rx, ms);
      FeedBody(rx, m, chunk, Frames(ms[|rx.out| + 1..]));
      BodyRead(rx, ms, m, chunk);
    }
  }

  lemma HeaderKnown(rx: Rx, ms: seq<Message>)
    requires Tracks(rx, ms) && !InHeader(rx) && |rx.out| < |ms|
    ensures rx.head == Header(|ms[|rx.out|]|)
  {
  }

  /** What has been read of the current frame, and the chunk after it, are where the stream goes on. */
  lemma OnStream(rx: Rx, ms: seq<Message>, chunk: seq<Byte>)
    requires Tracks(rx, ms) && |rx.out| < |ms| && Read(rx) + chunk <= Frames(ms)
    ensures rx.head + rx.got + chunk <= Frame(ms[|rx.out|]) + Frames(ms[|rx.out| + 1..])
  {
    hide Frame, Frames;
    FramesNext(ms, |rx.out|);
    Regroup2(Frames(rx.out), rx.head + rx.got, chunk);
    PrefixTail(Frames(rx.out), rx.head + rx.got + chunk, Frame(ms[|rx.out|]) + Frames(ms[|rx.out| + 1..]));
  }

  lemma Regroup2(a: seq<Byte>, b: seq<Byte>, c: seq<Byte>)
    ensures a + b + c == a + (b + c)
  {
  }

  lemma MoreToCome(rx: Rx, ms: seq<Message>, chunk: seq<Byte>)
    requires Tracks(rx, ms) && chunk != [] && Read(rx) + chunk <= Frames(ms)
    ensures |rx.out| < |ms|
  {
    assert ms[..|ms|] == ms;
  }

  lemma HeaderRead(rx: Rx, ms: seq<Message>, m: Message, chunk: seq<Byte>, tail: seq<Byte>)
    requires Tracks(rx, ms) && InHeader(rx) && |rx.out| < |ms| && ms[|rx.out|] == m && Sendable(m)
    requires chunk != [] && |rx.head| + |chunk| <= 4 && rx.head + rx.got + chunk <= Frame(m) + tail
    ensures Tracks(Feed(rx, chunk), ms) && Read(Feed(rx, chunk)) == Read(rx) + chunk
  {
    hide Header, FromBe, Frames, Frame;
    FeedHeader(rx, m, chunk, tail);
    Regroup(Frames(rx.out), [], rx.head, chunk);
    assert [] + rx.head == rx.head && rx.head + rx.got == rx.head && rx.head + chunk + [] == rx.head + chunk;
    assert [] + (rx.head + chunk) == rx.head + chunk;
  }

  lemma BodyRead(rx: Rx, ms: seq<Message>, m: Message, chunk: seq<Byte>)
    requires Tracks(rx, ms) && !InHeader(rx) && |rx.out| < |ms| && ms[|rx.out|] == m && FromBe(rx.head) == |m|
    requires chunk != [] && |rx.got| + |chunk| <= |m| && rx.got + chunk <= m && rx.head == Header(|m|)
    ensures Tracks(Feed(rx, chunk), ms) && Read(Feed(rx, chunk)) == Read(rx) + chunk
  {
    hide Header, FromBe, Frames;
    var k := |rx.out|;
    if |rx.got| + |chunk| == |m| {
      assert rx.got + chunk == m;
      assert rx.out + [m] == ms[..k + 1];
      FramesSnoc(rx.out, m);
      Regroup(Frames(rx.out), rx.head, rx.got, chunk);
    } else {
      Regroup(Frames(rx.out), rx.head, rx.got, chunk);
    }
  }

  lemma Regroup(a: seq<Byte>, h: seq<Byte>, g: seq<Byte>, c: seq<Byte>)
    ensures a + (h + g) + c == a + (h + (g + c))
  {
  }

  lemma FeedHeader(rx: Rx, m: Message, chunk: seq<Byte>, rest: seq<Byte>)
    requires |rx.head| + |chunk| <= 4 && rx.got == [] && rx.head + rx.got + chunk <= Frame(m) + rest
    ensures rx.head + chunk <= Header(|m|)
  {
    hide Header;
    var h, f := rx.head + chunk, Frame(m) + rest;
    assert rx.head + rx.got + chunk == h;
    assert forall i :: 0 <= i < |h| ==> h[i] == f[i] == Header(|m|)[i];
  }

  lemma FeedBody(rx: Rx, m: Message, chunk: seq<Byte>, rest: seq<Byte>)
    requires rx.head == Header(|m|) && |rx.got| + |chunk| <= |m| && rx.head + rx.got + chunk <= Frame(m) + rest
    ensures rx.got + chunk <= m
  {
    hide Header;
    assert rx.head + rx.got + chunk == rx.head + (rx.got + chunk);
    assert Frame(m) + rest == rx.head + (m + rest);
    PrefixTail(rx.head, rx.got + chunk, m + rest);
    assert forall i :: 0 <= i < |rx.got + chunk| ==> (rx.got + chunk)[i] == (m + rest)[i] == m[i];
  }

  /** Whatever the splitting, the receiver has at every moment exactly the messages whose frames have
      arrived, in order and with their own boundaries; once the whole stream has arrived, all of them. */
  lemma {:induction false} Delivered(rx: Rx, ms: seq<Message>, chunks: seq<seq<Byte>>)
    requires forall k :: 0 <= k < |ms| ==> Sendable(ms[k])
    requires Tracks(rx, ms) && Possible(rx, chunks) && Read(rx) + Flat(chunks) <= Frames(ms)
    ensures Tracks(FeedAll(rx, chunks), ms)
    ensures Read(rx) + Flat(chunks) == Frames(ms) ==> FeedAll(rx, chunks) == Rx(ms, [], [])
    decreases |chunks|
  {
    if chunks == [] {
      Finished(rx, ms);
    } else {
      assert Read(rx) + Flat(chunks) == Read(rx) + chunks[0] + Flat(chunks[1..]);
      assert Read(rx) + chunks[0] <= Frames(ms);
      FeedTracks(rx, ms, chunks[0]);
      Delivered(Feed(rx, chunks[0]), ms, chunks[1..]);
    }
  }

  /** Having read the whole stream means having every message. */
  lemma Finished(rx: Rx, ms: seq<Message>)
    requires Tracks(rx, ms)
    ensures Read(rx) == Frames(ms) ==> rx == Rx(ms, [], [])
  {
    var k := |rx.out|;
    assert ms[..k] == rx.out;
    if k < |ms| {
      FramesNext(ms, k);
      assert |rx.head| + |rx.got| < |Frame(ms[k])|;
    } else {
      assert ms[..k] == ms;
    }
  }

  // ---- the loops on the socket ------------------------------------------------------

  datatype ChannelState = Connected | Closed | Errored

  /** A connection: bytes accepted by the transport and not read yet. */
  class Pipe {
    var bytes: seq<Byte>
    var state: ChannelState

    /** write: some bytes are taken, or none when the socket is closed, or it fails. */
    method Write(bs: seq<Byte>) returns (n: int)
      requires bs != []
      modifies this`bytes
      ensures -1 <= n <= |bs| && bytes == old(bytes) + if n > 0 then bs[..n] else []
    {
      n :| -1 <= n <= |bs|;
      if n > 0 {
        bytes := bytes + bs[..n];
      }
    }

    /** read: some bytes of those on their way, or none when the socket is closed, or it fails. */
    method ReadSome(max: nat) returns (n: int, bs: seq<Byte>)
      requires 1 <= max
      modifies this`bytes
      ensures -1 <= n <= max && |bs| == (if n > 0 then n else 0) && old(bytes) == bs + bytes
    {
      n :| -1 <= n <= max && n <= |bytes|;
      bs := [];
      if n > 0 {
        bs, bytes := bytes[..n], bytes[n..];
      }
    }

    /** rawnet_send_bytes: the length once all bytes are out, 0 or -1 after the first k of them. */
    method SendBytes(bs: seq<Byte>) returns (r: int, ghost k: nat)
      modifies this`bytes
      ensures k <= |bs| && bytes == old(bytes) + bs[..k]
      ensures if k == |bs| then r == |bs| else r == 0 || r == -1
    {
      var sent := 0;
      while sent < |bs|
        invariant sent <= |bs| && bytes == old(bytes) + bs[..sent]
      {
        var n := Write(bs[sent..]);
        if n <= 0 {
          return n, sent;
        }
        assert bs[..sent] + bs[sent..][..n] == bs[..sent + n];
        sent := sent + n;
      }
      return |bs|, |bs|;
    }

    /** rawnet_read_bytes: the length once that many bytes are in, 0 or -1 after fewer. */
    method ReadBytes(len: nat) returns (r: int, buf: seq<Byte>)
      modifies this`bytes
      ensures |buf| <= len && old(bytes) == buf + bytes
      ensures if |buf| == len then r == len else r == 0 || r == -1
    {
      buf := [];
      while |buf| < len
        invariant |buf| <= len && old(bytes) == buf + bytes
        decreases len - |buf|
      {
        var n, bs := ReadSome(len - |buf|);
        if n <= 0 {
          return n, buf;
        }
        buf := buf + bs;
      }
      return len, buf;
    }

    /** What a result of the raw calls means for the connection: 0 counts as closed. */
    method Note(raw: int) returns (r: nat)
      modifies this`state
      ensures r == (if raw > 0 then raw else 0)
      ensures state == if raw > 0 then old(state) else if raw == 0 then Closed else Errored
    {
      if raw == 0 {
        state := Closed;
        return 0;
      }
      if raw < 0 {
        state := Errored;
        return 0;
      }
      return raw;
    }

    /** sendPacketizedBuffer: the first k bytes of the frame are out. The result is the length of the message
        exactly when all of them are, and 0 exactly when some are missing or the message is empty: then the
        connection is no longer taken for connected. */
    method SendMessage(m: Message) returns (r: nat, ghost k: nat)
      requires |m| <= MAX_MESSAGE
      modifies this
      ensures k <= |Frame(m)| && bytes == old(bytes) + Frame(m)[..k]
      ensures r == if k == |Frame(m)| then |m| else 0
      ensures r == 0 <==> |m| == 0 || k < |Frame(m)|
      ensures if r > 0 then state == old(state) else state != Connected
      ensures |m| == 0 && k == |Frame(m)| ==> state == Closed
    {
      var raw;
      raw, k := SendBytes(Header(|m|));
      assert Frame(m)[..k] == Header(|m|)[..k];
      if raw != 4 {
        r := Note(raw);
        return;
      }
      ghost var j;
      raw, j := SendBytes(m);
      k := 4 + j;
      assert Frame(m)[..k] == Header(|m|) + m[..j];
      r := Note(raw);
    }

    /** recvPacketizedBuffer on a stream that starts with the frame of m, or with as much of it as is on
        its way: the first k bytes are taken, all of them exactly when m is what comes out. An empty
        message that is taken whole counts as a closed connection all the same. */
    method RecvMessage(ghost m: Message, ghost rest: seq<Byte>) returns (r: nat, out: Message, ghost k: nat)
      requires |m| <= MAX_MESSAGE && bytes <= Frame(m) + rest
      modifies this
      ensures k <= |Frame(m)| && old(bytes) == Frame(m)[..k] + bytes
      ensures if k == |Frame(m)| then r == |m| && out == m else r == 0
      ensures r == 0 <==> |m| == 0 || k < |Frame(m)|
      ensures if r > 0 then state == old(state) else state != Connected
      ensures |m| == 0 && k == |Frame(m)| ==> state == Closed
    {
      var raw, head := ReadBytes(4);
      k := |head|;
      assert head == (Frame(m) + rest)[..k] == Frame(m)[..k];
      out := [];
      if raw != 4 {
        r := Note(raw);
        return;
      }
      assert head == Header(|m|);
      HeaderSays(m);
      ghost var mid := bytes;
      assert mid <= m + rest by { assert (Frame(m) + rest)[4..] == m + rest; }
      raw, out := ReadBytes(FromBe(head));
      k := 4 + |out|;
      assert out == (m + rest)[..|out|] == m[..|out|];
      assert Frame(m)[..k] == head + out;
      r := Note(raw);
    }
  }

  /** The empty message: however much of its frame goes out, and when all four bytes do, the sender gives the
      connection up; when they all do it takes the peer to have closed it. */
  method SendNothing(p: Pipe) returns (r: nat, ghost k: nat)
    modifies p
    ensures r == 0 && p.state != Connected
    ensures k <= 4 && p.bytes == old(p.bytes) + Frame([])[..k] && (k == 4 ==> p.state == Closed)
  {
    r, k := p.SendMessage([]);
  }

  /** The frame of an empty message, received: the four bytes are gone and so is the connection. */
  method RecvNothing(p: Pipe, ghost rest: seq<Byte>) returns (r: nat, ghost k: nat)
    requires p.bytes == Frame([]) + rest
    modifies p
    ensures r == 0 && p.state != Connected
    ensures k <= 4 && old(p.bytes) == Frame([])[..k] + p.bytes && (k == 4 ==> p.bytes == rest && p.state == Closed)
  {
    var out;
    r, out, k := p.RecvMessage([], rest);
    ghost var was := Frame([]) + rest;
    assert k == 4 ==> p.bytes == was[4..] && was[4..] == rest;
  }
}
