/** The header of a device packet, pushed onto and popped off the front of a buffer. */
module Wire {
  import opened Layout
  import opened Codec

  const HEADER_LEN: nat := 14

  datatype Fields = Fields(usr: nat, did: nat, cmd: nat, ack: bool)

  predicate InRange(f: Fields, data: seq<Byte>) {
    f.usr < Pow256(4) && f.did < Pow256(4) && f.cmd < Pow256(1) && |data| < Pow256(4)
  }

  function AckByte(ack: bool): Byte {
    if ack then 1 else 0
  }

  function Head(f: Fields, len: nat): (s: seq<Byte>)
    ensures |s| == HEADER_LEN
  {
    Le(4, f.usr) + Le(4, f.did) + Le(1, f.cmd) + [AckByte(f.ack)] + Le(4, len)
  }

  /** What a packet says, if it says it consistently: the length field must match what follows. */
  function Parse(s: seq<Byte>): Option<(Fields, seq<Byte>)> {
    if |s| < HEADER_LEN || FromLe(s[10..14]) != |s| - HEADER_LEN then None
    else Some((Fields(FromLe(s[..4]), FromLe(s[4..8]), FromLe(s[8..9]), s[9] != 0), s[14..]))
  }

  /** Unmarshalling undoes marshalling, and a packet cut short or extended is turned down. */
  lemma HeaderRoundTrip(f: Fields, data: seq<Byte>, extra: seq<Byte>)
    requires InRange(f, data)
    ensures Parse(Head(f, |data|) + data) == Some((f, data))
    ensures extra != [] ==> Parse(Head(f, |data|) + data + extra).None?
    ensures forall n :: 0 <= n < HEADER_LEN + |data| ==> Parse((Head(f, |data|) + data)[..n]).None?
  {
    hide Le, FromLe;
    LeRoundTrip(4, f.usr);
    LeRoundTrip(4, f.did);
    LeRoundTrip(1, f.cmd);
    LeRoundTrip(4, |data|);
    var h := Head(f, |data|);
    assert h[..4] == Le(4, f.usr) && h[4..8] == Le(4, f.did) && h[8..9] == Le(1, f.cmd);
    assert h[9] == AckByte(f.ack) && h[10..14] == Le(4, |data|);
    var s := h + data;
    assert s[..4] == h[..4] && s[4..8] == h[4..8] && s[8..9] == h[8..9] && s[9] == h[9] && s[10..14] == h[10..14]
           && s[14..] == data;
    assert (s + extra)[10..14] == h[10..14];
    forall n | 0 <= n < |s| ensures Parse(s[..n]).None? {
      if n >= HEADER_LEN {
        assert s[..n][10..14] == h[10..14];
      }
    }
  }

  /** Whatever parses is what marshalling its fields gives, but for the acknowledgement, where every byte but 0
      counts as true. */
  lemma ParsedIs(s: seq<Byte>)
    ensures Parse(s).Some? ==>
              && var (f, data) := Parse(s).value;
              && (f.ack <==> s[9] != 0) && |data| == |s| - HEADER_LEN
              && s == (Head(f, |data|) + data)[9 := s[9]]
  {
    hide Le, FromLe;
    if Parse(s).Some? {
      var (f, data) := Parse(s).value;
      LeOnto(s[..4]);
      LeOnto(s[4..8]);
      LeOnto(s[8..9]);
      LeOnto(s[10..14]);
      var h := Head(f, |data|);
      assert h[..4] == Le(4, f.usr) && h[4..8] == Le(4, f.did) && h[8..9] == Le(1, f.cmd) && h[10..14] == Le(4, |data|);
      assert s == s[..4] + s[4..8] + s[8..9] + [s[9]] + s[10..14] + s[14..];
      assert (h + data)[9 := s[9]] == h[..4] + h[4..8] + h[8..9] + [s[9]] + h[10..14] + data;
    }
  }

  /** Byte k of a header: user, device, command, acknowledgement, length, each with its low byte first. */
  lemma HeaderByte(f: Fields, len: nat, k: nat)
    requires k < HEADER_LEN && f.cmd < 256
    ensures Head(f, len)[k] ==
            if k < 4 then f.usr / Pow256(k) % 256
            else if k < 8 then f.did / Pow256(k - 4) % 256
            else if k == 8 then f.cmd
            else if k == 9 then (if f.ack then 1 else 0)
            else len / Pow256(k - 10) % 256
  {
    hide Le, Pow256;
    if k < 4 {
      LeByte(4, f.usr, k);
    } else if k < 8 {
      LeByte(4, f.did, k - 4);
    } else if k == 8 {
      LeByte(1, f.cmd, 0);
      assert Pow256(0) == 1 by { PowZero(); }
    } else if k >= 10 {
      LeByte(4, len, k - 10);
    }
  }

  lemma PowZero()
    ensures Pow256(0) == 1
  {
  }

  /** The part of a flexible buffer this layer uses. */
  class Buffer {
    var bytes: seq<Byte>

    method AddHeader(bs: seq<Byte>)
      modifies this
      ensures bytes == bs + old(bytes)
    {
      bytes := bs + bytes;
    }

    method RemoveHeader(n: nat) returns (bs: seq<Byte>)
      requires n <= |bytes|
      modifies this
      ensures |bs| == n && old(bytes) == bs + bytes
    {
      bs := bytes[..n];
      bytes := bytes[n..];
    }

    /** marshalBfsDevicePacket, before encryption. */
    method Marshal(f: Fields)
      modifies this
      ensures bytes == Head(f, |old(bytes)|) + old(bytes)
    {
      hide Le;
      var len := |bytes|;
      AddHeader(Le(4, len));
      AddHeader([AckByte(f.ack)]);
      AddHeader(Le(1, f.cmd));
      AddHeader(Le(4, f.did));
      AddHeader(Le(4, f.usr));
    }

    /** unmarshalBfsDevicePacket, after decryption. */
    method Unmarshal() returns (r: Option<Fields>)
      modifies this
      ensures r.Some? <==> Parse(old(bytes)).Some?
      ensures r.Some? ==> Parse(old(bytes)) == Some((r.value, bytes))
    {
      hide FromLe;
      if |bytes| < HEADER_LEN {
        return None;
      }
      ghost var s := bytes;
      var usr := RemoveHeader(4);
      assert usr == s[..4] && bytes == s[4..];
      var did := RemoveHeader(4);
      assert did == s[4..8] && bytes == s[8..];
      var cmd := RemoveHeader(1);
      assert cmd == s[8..9] && bytes == s[9..];
      var ack := RemoveHeader(1);
      assert ack[0] == s[9] && bytes == s[10..];
      var len := RemoveHeader(4);
      assert len == s[10..14] && bytes == s[14..];
      if FromLe(len) != |bytes| {
        return None;
      }
      return Some(Fields(FromLe(usr), FromLe(did), FromLe(cmd), ack[0] != 0));
    }
  }
}
