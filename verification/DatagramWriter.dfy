/** The writers of the SetFreq datagram, which extend a byte buffer field by field. */
module DatagramWriter {
  import opened Datagram
  import opened DatagramRoundTrip
  import opened Options

  const MAGIC: nat := 0xADBC_CBDA
  const SCHEMA: nat := 3
  const SET_FREQ: nat := 17

  /** The number with its n bytes in the opposite order, as `htonl` and its 64-bit sibling give it on a PC. */
  function Swapped(value: nat, n: nat): nat {
    Little(Bytes(value, n))
  }

  lemma LittleFront(b: seq<Byte>)
    requires b != []
    ensures Little(b) % 256 == b[0] && Little(b) / 256 == Little(b[1..])
  {
  }

  class Buffer {
    var bytes: seq<Byte>

    constructor ()
      ensures bytes == []
    {
      bytes := [];
    }

    /** The n bytes of a number as they lie in memory, the least significant first. */
    method Insert(value: nat, n: nat, ghost b: seq<Byte>)
      requires |b| == n && value == Little(b)
      modifies this
      ensures bytes == old(bytes) + b
    {
      var rest := value;
      for i := 0 to n
        invariant bytes == old(bytes) + b[..i] && rest == Little(b[i..])
      {
        LittleFront(b[i..]);
        assert b[i..][1..] == b[i + 1..] && b[..i + 1] == b[..i] + [b[i]];
        bytes := bytes + [rest % 256];
        rest := rest / 256;
      }
    }

    method AppendBeUint32(value: nat)
      modifies this
      ensures bytes == old(bytes) + PutNumber(value, 4)
    {
      Insert(Swapped(value, 4), 4, Bytes(value, 4));
    }

    method AppendBeUint64(value: nat)
      modifies this
      ensures bytes == old(bytes) + PutNumber(value, 8)
    {
      Insert(Swapped(value, 8), 8, Bytes(value, 8));
    }

    method AppendQUtf8(str: seq<Byte>)
      modifies this
      ensures bytes == old(bytes) + PutText(str)
    {
      AppendBeUint32(|str| % 0x1_0000_0000);
      bytes := bytes + str;
    }

    /** The header part of `sendSetFreqCommand`. */
    method AppendSetFreqHeader(sessionId: seq<Byte>)
      modifies this
      ensures bytes == old(bytes) + PutHeader(Header(MAGIC, SCHEMA, SET_FREQ, sessionId), [])
      ensures bytes == old(bytes) + ([0xAD, 0xBC, 0xCB, 0xDA, 0, 0, 0, 3, 0, 0, 0, 17] + PutText(sessionId))
    {
      HeaderBytes(sessionId);
      hide PutNumber, PutText;
      AppendBeUint32(MAGIC);
      AppendBeUint32(SCHEMA);
      AppendBeUint32(SET_FREQ);
      AppendQUtf8(sessionId);
      HeaderParts(old(bytes), Header(MAGIC, SCHEMA, SET_FREQ, sessionId));
    }
  }

  lemma HeaderParts(front: seq<Byte>, h: Header)
    ensures front + PutNumber(h.magic, 4) + PutNumber(h.schema, 4) + PutNumber(h.kind, 4) + PutText(h.id)
            == front + PutHeader(h, [])
  {
    var a, b, c, d := PutNumber(h.magic, 4), PutNumber(h.schema, 4), PutNumber(h.kind, 4), PutText(h.id);
    assert d + [] == d;
    assert front + a + b + c + d == front + (a + (b + (c + d)));
  }

  /** The first twelve bytes of the command. */
  lemma HeaderBytes(sessionId: seq<Byte>)
    ensures PutHeader(Header(MAGIC, SCHEMA, SET_FREQ, sessionId), [])
            == [0xAD, 0xBC, 0xCB, 0xDA, 0, 0, 0, 3, 0, 0, 0, 17] + PutText(sessionId)
  {
    FourBytes(0xAD, 0xBC, 0xCB, 0xDA);
    FourBytes(0, 0, 0, 3);
    FourBytes(0, 0, 0, 17);
    HeaderParts([], Header(MAGIC, SCHEMA, SET_FREQ, sessionId));
  }

  lemma FourBytes(a: Byte, b: Byte, c: Byte, d: Byte)
    ensures Bytes(((a * 256 + b) * 256 + c) * 256 + d, 4) == [a, b, c, d]
  {
    assert Bytes(a, 1) == [a];
    assert Bytes(a * 256 + b, 2) == [a, b];
    assert Bytes((a * 256 + b) * 256 + c, 3) == [a, b, c];
  }

  /** What the header reader makes of a written header, whatever follows it. */
  lemma SetFreqHeaderBack(sessionId: seq<Byte>, payload: seq<Byte>)
    requires FitsText(sessionId)
    ensures var h := Header(MAGIC, SCHEMA, SET_FREQ, sessionId);
            var r := ReadHeader(PutHeader(h, []) + payload, 0);
            r == Some((h, 16 + |sessionId|))
  {
    var h := Header(MAGIC, SCHEMA, SET_FREQ, sessionId);
    var pkt := PutHeader(h, []) + payload;
    HeaderParts([], h);
    HeaderWith(h, payload);
    Range4();
    assert pkt[0..] == pkt;
    HeaderBack(pkt, 0, h, payload);
    hide ReadHeader;
    assert |pkt| == 16 + |sessionId| + |payload|;
  }

  lemma HeaderWith(h: Header, rest: seq<Byte>)
    ensures PutHeader(h, []) + rest == PutHeader(h, rest)
    ensures |PutHeader(h, [])| == 16 + |h.id|
  {
    var a, b, c, d := PutNumber(h.magic, 4), PutNumber(h.schema, 4), PutNumber(h.kind, 4), PutText(h.id);
    assert (a + (b + (c + (d + [])))) + rest == a + (b + (c + (d + rest)));
  }
}
