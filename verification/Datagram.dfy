/** WSJT-X datagrams: big-endian fields written one after the other, and a cursor that reads
    them back. */
module Datagram {
  import opened Options

  type Byte = n: int | 0 <= n < 256

  // ---------- Numbers as bytes ----------

  /** Most significant byte first. */
  function Big(b: seq<Byte>): nat {
    if b == [] then 0 else Big(b[..|b| - 1]) * 256 + b[|b| - 1]
  }

  /** Least significant byte first: what copying bytes into an integer gives on a PC. */
  function Little(b: seq<Byte>): nat {
    if b == [] then 0 else b[0] + 256 * Little(b[1..])
  }

  function Range(n: nat): (r: nat)
    ensures r > 0
  {
    if n == 0 then 1 else 256 * Range(n - 1)
  }

  /** n bytes of a number, most significant first. */
  function Bytes(v: nat, n: nat): (b: seq<Byte>)
    ensures |b| == n
  {
    if n == 0 then [] else Bytes(v / 256, n - 1) + [v % 256]
  }

  lemma {:induction false} BigBytes(v: nat, n: nat)
    requires v < Range(n)
    ensures Big(Bytes(v, n)) == v
  {
    if n > 0 {
      BigBytes(v / 256, n - 1);
      assert Bytes(v, n)[..n - 1] == Bytes(v / 256, n - 1);
    }
  }

  lemma {:induction false} LittleIsBigReversed(rev: seq<Byte>, b: seq<Byte>)
    requires |rev| == |b| && forall i | 0 <= i < |b| :: rev[|b| - 1 - i] == b[i]
    ensures Little(rev) == Big(b)
  {
    if b != [] {
      LittleIsBigReversed(rev[1..], b[..|b| - 1]);
    }
  }

  function Signed32(n: nat): int {
    if n < 0x8000_0000 then n else n - 0x1_0000_0000
  }

  // ---------- Reading, as a function of the datagram and the cursor ----------

  /** n bytes as a number; None where the source reads past the datagram. */
  function ReadNumber(pkt: seq<Byte>, i: nat, n: nat): Option<(nat, nat)> {
    if i + n <= |pkt| then Some((Big(pkt[i..i + n]), i + n)) else None
  }

  function ReadFlag(pkt: seq<Byte>, i: nat): Option<(bool, nat)> {
    if i < |pkt| then Some((pkt[i] != 0, i + 1)) else None
  }

  /** A length of zero or below, such as that of a null string, gives the empty string. */
  function ReadText(pkt: seq<Byte>, i: nat): Option<(seq<Byte>, nat)> {
    var (n, j) :- ReadNumber(pkt, i, 4);
    var length := Signed32(n);
    if length <= 0 then Some(([], j))
    else if j + length <= |pkt| then Some((pkt[j..j + length], j + length))
    else None
  }

  /** A length with its highest bit set, as a null string has, gives the empty string. */
  lemma NullText(pkt: seq<Byte>, i: nat)
    requires i + 4 <= |pkt| && pkt[i] >= 128
    ensures ReadText(pkt, i) == Some(([], i + 4))
  {
    var b := pkt[i..i + 4];
    assert b[..3][..2][..1] == [b[0]];
    assert Big([b[0]]) == b[0] && Big(b[..3][..2]) == Big(b[..3][..2][..1]) * 256 + b[1];
    assert Big(b[..3]) == Big(b[..3][..2]) * 256 + b[2] && Big(b) == Big(b[..3]) * 256 + b[3];
  }

  datatype Header = Header(magic: nat, schema: nat, kind: nat, id: seq<Byte>)

  function ReadHeader(pkt: seq<Byte>, i: nat): Option<(Header, nat)> {
    var (magic, i) :- ReadNumber(pkt, i, 4);
    var (schema, i) :- ReadNumber(pkt, i, 4);
    var (kind, i) :- ReadNumber(pkt, i, 4);
    var (id, i) :- ReadText(pkt, i);
    Some((Header(magic, schema, kind, id), i))
  }

  /** A status message, in three groups of consecutive fields and the text the source takes from its end. */
  datatype Dial = Dial(frequency: nat, mode: seq<Byte>, dxCall: seq<Byte>, report: seq<Byte>, txMode: seq<Byte>)
  datatype Activity = Activity(txEnabled: bool, transmitting: bool, decoding: bool, rxDf: nat, txDf: nat)
  datatype Station = Station(deCall: seq<Byte>, deGrid: seq<Byte>, dxGrid: seq<Byte>, txWatchdog: bool,
                             submode: seq<Byte>, fastMode: bool)

  datatype Status = Status(dial: Dial, activity: Activity, station: Station, defaultTxMessage: seq<Byte>)

  function ReadDial(pkt: seq<Byte>, i: nat): Option<(Dial, nat)> {
    var (frequency, i) :- ReadNumber(pkt, i, 8);
    var (mode, i) :- ReadText(pkt, i);
    var (dxCall, i) :- ReadText(pkt, i);
    var (report, i) :- ReadText(pkt, i);
    var (txMode, i) :- ReadText(pkt, i);
    Some((Dial(frequency, mode, dxCall, report, txMode), i))
  }

  function ReadActivity(pkt: seq<Byte>, i: nat): Option<(Activity, nat)> {
    var (txEnabled, i) :- ReadFlag(pkt, i);
    var (transmitting, i) :- ReadFlag(pkt, i);
    var (decoding, i) :- ReadFlag(pkt, i);
    var (rxDf, i) :- ReadNumber(pkt, i, 4);
    var (txDf, i) :- ReadNumber(pkt, i, 4);
    Some((Activity(txEnabled, transmitting, decoding, rxDf, txDf), i))
  }

  function ReadStation(pkt: seq<Byte>, i: nat): Option<(Station, nat)> {
    var (deCall, i) :- ReadText(pkt, i);
    var (deGrid, i) :- ReadText(pkt, i);
    var (dxGrid, i) :- ReadText(pkt, i);
    var (txWatchdog, i) :- ReadFlag(pkt, i);
    var (submode, i) :- ReadText(pkt, i);
    var (fastMode, i) :- ReadFlag(pkt, i);
    Some((Station(deCall, deGrid, dxGrid, txWatchdog, submode, fastMode), i))
  }

  /** Everything from 24 bytes behind the cursor to the end of the datagram. */
  function ReadDefaultTxMessage(pkt: seq<Byte>, i: nat): Option<seq<Byte>> {
    if pkt == [] then Some([]) else if i + 24 <= |pkt| then Some(pkt[i + 24..]) else None
  }

  function ReadStatus(pkt: seq<Byte>, i: nat): Option<Status> {
    var (dial, i) :- ReadDial(pkt, i);
    var (activity, i) :- ReadActivity(pkt, i);
    var (station, i) :- ReadStation(pkt, i);
    var message :- ReadDefaultTxMessage(pkt, i);
    Some(Status(dial, activity, station, message))
  }

  /** A decoded transmission; the time offset is kept as the eight bytes of its double. */
  datatype Timing = Timing(isNew: bool, time: nat, snr: int, deltaTime: nat, deltaFrequency: nat)
  datatype Text = Text(mode: seq<Byte>, message: seq<Byte>, lowConfidence: bool, offAir: bool)
  datatype Spot = Spot(timing: Timing, text: Text)

  function ReadTiming(pkt: seq<Byte>, i: nat): Option<(Timing, nat)> {
    var (isNew, i) :- ReadFlag(pkt, i);
    var (time, i) :- ReadNumber(pkt, i, 4);
    var (snr, i) :- ReadNumber(pkt, i, 4);
    var (deltaTime, i) :- ReadNumber(pkt, i, 8);
    var (deltaFrequency, i) :- ReadNumber(pkt, i, 4);
    Some((Timing(isNew, time, Signed32(snr), deltaTime, deltaFrequency), i))
  }

  function ReadMessage(pkt: seq<Byte>, i: nat): Option<(Text, nat)> {
    var (mode, i) :- ReadText(pkt, i);
    var (message, i) :- ReadText(pkt, i);
    var (lowConfidence, i) :- ReadFlag(pkt, i);
    var (offAir, i) :- ReadFlag(pkt, i);
    Some((Text(mode, message, lowConfidence, offAir), i))
  }

  function ReadSpot(pkt: seq<Byte>, i: nat): Option<(Spot, nat)> {
    var (timing, i) :- ReadTiming(pkt, i);
    var (text, i) :- ReadMessage(pkt, i);
    Some((Spot(timing, text), i))
  }

  // ---------- Reading, as the source does: a cursor that moves ----------

  class Packet {
    const packet: seq<Byte>
    var index: nat

    constructor (packet: seq<Byte>, index: nat)
      ensures this.packet == packet && this.index == index
    {
      this.packet := packet;
      this.index := index;
    }

    /** The loop shared by the integer readers: reverse n bytes, then copy them into a number. */
    method GetNumber(n: nat) returns (r: Option<nat>)
      modifies this`index
      ensures match ReadNumber(packet, old(index), n)
              case None => r == None && index == old(index)
              case Some((v, j)) => r == Some(v) && index == j
    {
      if index + n > |packet| {
        return None;
      }
      var rev := new Byte[n](_ => 0);
      for i := 0 to n
        invariant index == old(index)
        invariant forall k | n - i <= k < n :: rev[k] == packet[index + n - 1 - k]
      {
        rev[n - 1 - i] := packet[i + index];
      }
      LittleIsBigReversed(rev[..], packet[index..index + n]);
      index := index + n;
      return Some(Little(rev[..]));
    }

    method GetBool() returns (r: Option<bool>)
      modifies this`index
      ensures match ReadFlag(packet, old(index))
              case None => r == None && index == old(index)
              case Some((v, j)) => r == Some(v) && index == j
    {
      if index >= |packet| {
        return None;
      }
      r := Some(packet[index] != 0);
      index := index + 1;
    }

    method ReadUtf8() returns (r: Option<seq<Byte>>)
      modifies this`index
      ensures match ReadText(packet, old(index))
              case None => r == None
              case Some((v, j)) => r == Some(v) && index == j
    {
      var n :- GetNumber(4);
      var length := Signed32(n);
      if length > 0 {
        if index + length > |packet| {
          return None;
        }
        var text := packet[index..index + length];
        index := index + length;
        return Some(text);
      } else {
        return Some([]);
      }
    }

    method DecodeHeader() returns (r: Option<Header>)
      modifies this`index
      ensures match ReadHeader(packet, old(index))
              case None => r == None
              case Some((v, j)) => r == Some(v) && index == j
    {
      var magic :- GetNumber(4);
      var schema :- GetNumber(4);
      var kind :- GetNumber(4);
      var id :- ReadUtf8();
      return Some(Header(magic, schema, kind, id));
    }

    method DecodeDial() returns (r: Option<Dial>)
      modifies this`index
      ensures match ReadDial(packet, old(index))
              case None => r == None
              case Some((v, j)) => r == Some(v) && index == j
    {
      var frequency :- GetNumber(8);
      var mode :- ReadUtf8();
      var dxCall :- ReadUtf8();
      var report :- ReadUtf8();
      var txMode :- ReadUtf8();
      return Some(Dial(frequency, mode, dxCall, report, txMode));
    }

    method DecodeActivity() returns (r: Option<Activity>)
      modifies this`index
      ensures match ReadActivity(packet, old(index))
              case None => r == None
              case Some((v, j)) => r == Some(v) && index == j
    {
      var txEnabled :- GetBool();
      var transmitting :- GetBool();
      var decoding :- GetBool();
      var rxDf :- GetNumber(4);
      var txDf :- GetNumber(4);
      return Some(Activity(txEnabled, transmitting, decoding, rxDf, txDf));
    }

    method DecodeStation() returns (r: Option<Station>)
      modifies this`index
      ensures match ReadStation(packet, old(index))
              case None => r == None
              case Some((v, j)) => r == Some(v) && index == j
    {
      var deCall :- ReadUtf8();
      var deGrid :- ReadUtf8();
      var dxGrid :- ReadUtf8();
      var txWatchdog :- GetBool();
      var submode :- ReadUtf8();
      var fastMode :- GetBool();
      return Some(Station(deCall, deGrid, dxGrid, txWatchdog, submode, fastMode));
    }

    method DecodeStatus() returns (r: Option<Status>)
      modifies this`index
      ensures r == ReadStatus(packet, old(index))
    {
      hide ReadDial, ReadActivity, ReadStation;
      var dial :- DecodeDial();
      var activity :- DecodeActivity();
      var station :- DecodeStation();
      if |packet| == 0 {
        return Some(Status(dial, activity, station, []));
      }
      if index + 24 > |packet| {
        return None;
      }
      var message := packet[index + 24..];
      index := index + |packet|;
      return Some(Status(dial, activity, station, message));
    }

    method DecodeSpot() returns (r: Option<Spot>)
      modifies this`index
      ensures match ReadSpot(packet, old(index))
              case None => r == None
              case Some((v, j)) => r == Some(v) && index == j
    {
      var isNew :- GetBool();
      var time :- GetNumber(4);
      var snr :- GetNumber(4);
      var deltaTime :- GetNumber(8);
      var deltaFrequency :- GetNumber(4);
      var mode :- ReadUtf8();
      var message :- ReadUtf8();
      var lowConfidence :- GetBool();
      var offAir :- GetBool();
      return Some(Spot(Timing(isNew, time, Signed32(snr), deltaTime, deltaFrequency),
                       Text(mode, message, lowConfidence, offAir)));
    }
  }
}
