/** Writing a record in the documented layout and reading it back. */
module DatagramRoundTrip {
  import opened Datagram
  import opened Options

  // ---------- Writing ----------

  /** `appendBeUint32` and `appendBeUint64`. */
  function PutNumber(v: nat, n: nat): seq<Byte> {
    Bytes(v, n)
  }

  /** `appendQUtf8`. */
  function PutText(s: seq<Byte>): seq<Byte> {
    Bytes(|s| % 0x1_0000_0000, 4) + s
  }

  function PutFlag(b: bool): seq<Byte> {
    [if b then 1 else 0]
  }

  predicate FitsText(s: seq<Byte>) {
    |s| < 0x8000_0000
  }

  function PutHeader(h: Header, rest: seq<Byte>): seq<Byte> {
    PutNumber(h.magic, 4) + (PutNumber(h.schema, 4) + (PutNumber(h.kind, 4) + (PutText(h.id) + rest)))
  }

  predicate FitsHeader(h: Header) {
    h.magic < Range(4) && h.schema < Range(4) && h.kind < Range(4) && FitsText(h.id)
  }

  /** The fields of a status message, in the order of the protocol's table. */
  function PutDial(d: Dial, rest: seq<Byte>): seq<Byte> {
    PutNumber(d.frequency, 8) + (PutText(d.mode) + (PutText(d.dxCall)
      + (PutText(d.report) + (PutText(d.txMode) + rest))))
  }

  predicate FitsDial(d: Dial) {
    d.frequency < Range(8) && FitsText(d.mode) && FitsText(d.dxCall) && FitsText(d.report) && FitsText(d.txMode)
  }

  function PutActivity(a: Activity, rest: seq<Byte>): seq<Byte> {
    PutFlag(a.txEnabled) + (PutFlag(a.transmitting) + (PutFlag(a.decoding)
      + (PutNumber(a.rxDf, 4) + (PutNumber(a.txDf, 4) + rest))))
  }

  predicate FitsActivity(a: Activity) {
    a.rxDf < Range(4) && a.txDf < Range(4)
  }

  function PutStation(s: Station, rest: seq<Byte>): seq<Byte> {
    PutText(s.deCall) + (PutText(s.deGrid) + (PutText(s.dxGrid) + (PutFlag(s.txWatchdog)
      + (PutText(s.submode) + (PutFlag(s.fastMode) + rest)))))
  }

  predicate FitsStation(s: Station) {
    FitsText(s.deCall) && FitsText(s.deGrid) && FitsText(s.dxGrid) && FitsText(s.submode)
  }

  /** The fields that follow the fast mode. */
  datatype Tail = Tail(specialMode: Byte, tolerance: nat, period: nat, configuration: seq<Byte>, txMessage: seq<Byte>)

  function PutTail(t: Tail): seq<Byte> {
    [t.specialMode] + PutNumber(t.tolerance, 4) + PutNumber(t.period, 4)
    + PutText(t.configuration) + PutText(t.txMessage)
  }

  function PutTiming(t: Timing, rest: seq<Byte>): seq<Byte> {
    PutFlag(t.isNew) + (PutNumber(t.time, 4) + (PutNumber(t.snr % 0x1_0000_0000, 4) + (PutNumber(t.deltaTime, 8)
      + (PutNumber(t.deltaFrequency, 4) + rest))))
  }

  predicate FitsTiming(t: Timing) {
    t.time < Range(4) && -0x8000_0000 <= t.snr < 0x8000_0000 && t.deltaTime < Range(8) && t.deltaFrequency < Range(4)
  }

  function PutMessage(t: Text, rest: seq<Byte>): seq<Byte> {
    PutText(t.mode) + (PutText(t.message) + (PutFlag(t.lowConfidence) + (PutFlag(t.offAir) + rest)))
  }

  predicate FitsMessage(t: Text) {
    FitsText(t.mode) && FitsText(t.message)
  }

  // ---------- One field ----------

  lemma Behind(pkt: seq<Byte>, i: nat, front: seq<Byte>, rest: seq<Byte>)
    requires i <= |pkt| && pkt[i..] == front + rest
    ensures i + |front| <= |pkt| && pkt[i..i + |front|] == front && pkt[i + |front|..] == rest
  {
    assert pkt[i..][..|front|] == front;
    assert pkt[i..][|front|..] == rest;
  }

  lemma NumberBack(pkt: seq<Byte>, i: nat, v: nat, n: nat, rest: seq<Byte>)
    requires i <= |pkt| && pkt[i..] == PutNumber(v, n) + rest && v < Range(n)
    ensures ReadNumber(pkt, i, n) == Some((v, i + n)) && i + n <= |pkt| && pkt[i + n..] == rest
  {
    Behind(pkt, i, Bytes(v, n), rest);
    BigBytes(v, n);
  }

  lemma FlagBack(pkt: seq<Byte>, i: nat, b: bool, rest: seq<Byte>)
    requires i <= |pkt| && pkt[i..] == PutFlag(b) + rest
    ensures ReadFlag(pkt, i) == Some((b, i + 1)) && i + 1 <= |pkt| && pkt[i + 1..] == rest
  {
    Behind(pkt, i, PutFlag(b), rest);
    assert pkt[i] == pkt[i..i + 1][0];
  }

  lemma Range4()
    ensures Range(4) == 0x1_0000_0000
  {
    assert Range(2) == 65536;
  }

  lemma TextBack(pkt: seq<Byte>, i: nat, s: seq<Byte>, rest: seq<Byte>)
    requires i <= |pkt| && pkt[i..] == PutText(s) + rest && FitsText(s)
    ensures ReadText(pkt, i) == Some((s, i + 4 + |s|)) && i + 4 + |s| <= |pkt| && pkt[i + 4 + |s|..] == rest
  {
    assert PutText(s) + rest == PutNumber(|s|, 4) + (s + rest);
    Range4();
    NumberBack(pkt, i, |s|, 4, s + rest);
    Behind(pkt, i + 4, s, rest);
  }

  // ---------- Whole records ----------

  lemma HeaderBack(pkt: seq<Byte>, i: nat, h: Header, rest: seq<Byte>)
    requires i <= |pkt| && pkt[i..] == PutHeader(h, rest) && FitsHeader(h)
    ensures var r := ReadHeader(pkt, i);
            r.Some? && r.value.0 == h && r.value.1 <= |pkt| && pkt[r.value.1..] == rest
  {
    hide PutNumber, PutText;
    NumberBack(pkt, i, h.magic, 4, PutNumber(h.schema, 4) + (PutNumber(h.kind, 4) + (PutText(h.id) + rest)));
    NumberBack(pkt, i + 4, h.schema, 4, PutNumber(h.kind, 4) + (PutText(h.id) + rest));
    NumberBack(pkt, i + 8, h.kind, 4, PutText(h.id) + rest);
    TextBack(pkt, i + 12, h.id, rest);
  }

  lemma DialBack(pkt: seq<Byte>, i: nat, d: Dial, rest: seq<Byte>)
    requires i <= |pkt| && pkt[i..] == PutDial(d, rest) && FitsDial(d)
    ensures var r := ReadDial(pkt, i);
            r.Some? && r.value.0 == d && r.value.1 <= |pkt| && pkt[r.value.1..] == rest
  {
    hide PutNumber, PutText, PutFlag, ReadNumber, ReadText, ReadFlag;
    var r4 := PutText(d.txMode) + rest;
    var r3 := PutText(d.report) + r4;
    var r2 := PutText(d.dxCall) + r3;
    var r1 := PutText(d.mode) + r2;
    NumberBack(pkt, i, d.frequency, 8, r1);
    var i1 := i + 8;
    TextBack(pkt, i1, d.mode, r2);
    var i2 := i1 + 4 + |d.mode|;
    TextBack(pkt, i2, d.dxCall, r3);
    var i3 := i2 + 4 + |d.dxCall|;
    TextBack(pkt, i3, d.report, r4);
    var i4 := i3 + 4 + |d.report|;
    TextBack(pkt, i4, d.txMode, rest);
  }

  lemma ActivityBack(pkt: seq<Byte>, i: nat, a: Activity, rest: seq<Byte>)
    requires i <= |pkt| && pkt[i..] == PutActivity(a, rest) && FitsActivity(a)
    ensures var r := ReadActivity(pkt, i);
            r.Some? && r.value.0 == a && r.value.1 <= |pkt| && pkt[r.value.1..] == rest
  {
    hide PutNumber, PutText, PutFlag, ReadNumber, ReadText, ReadFlag;
    var r4 := PutNumber(a.txDf, 4) + rest;
    var r3 := PutNumber(a.rxDf, 4) + r4;
    var r2 := PutFlag(a.decoding) + r3;
    var r1 := PutFlag(a.transmitting) + r2;
    FlagBack(pkt, i, a.txEnabled, r1);
    var i1 := i + 1;
    FlagBack(pkt, i1, a.transmitting, r2);
    var i2 := i1 + 1;
    FlagBack(pkt, i2, a.decoding, r3);
    var i3 := i2 + 1;
    NumberBack(pkt, i3, a.rxDf, 4, r4);
    var i4 := i3 + 4;
    NumberBack(pkt, i4, a.txDf, 4, rest);
  }

  lemma StationBack(pkt: seq<Byte>, i: nat, s: Station, rest: seq<Byte>)
    requires i <= |pkt| && pkt[i..] == PutStation(s, rest) && FitsStation(s)
    ensures var r := ReadStation(pkt, i);
            r.Some? && r.value.0 == s && r.value.1 <= |pkt| && pkt[r.value.1..] == rest
  {
    hide PutNumber, PutText, PutFlag, ReadNumber, ReadText, ReadFlag;
    var r5 := PutFlag(s.fastMode) + rest;
    var r4 := PutText(s.submode) + r5;
    var r3 := PutFlag(s.txWatchdog) + r4;
    var r2 := PutText(s.dxGrid) + r3;
    var r1 := PutText(s.deGrid) + r2;
    TextBack(pkt, i, s.deCall, r1);
    var i1 := i + 4 + |s.deCall|;
    TextBack(pkt, i1, s.deGrid, r2);
    var i2 := i1 + 4 + |s.deGrid|;
    TextBack(pkt, i2, s.dxGrid, r3);
    var i3 := i2 + 4 + |s.dxGrid|;
    FlagBack(pkt, i3, s.txWatchdog, r4);
    var i4 := i3 + 1;
    TextBack(pkt, i4, s.submode, r5);
    var i5 := i4 + 4 + |s.submode|;
    FlagBack(pkt, i5, s.fastMode, rest);
  }

  lemma TimingBack(pkt: seq<Byte>, i: nat, t: Timing, rest: seq<Byte>)
    requires i <= |pkt| && pkt[i..] == PutTiming(t, rest) && FitsTiming(t)
    ensures var r := ReadTiming(pkt, i);
            r.Some? && r.value.0 == t && r.value.1 <= |pkt| && pkt[r.value.1..] == rest
  {
    Range4();
    hide PutNumber, PutText, PutFlag, ReadNumber, ReadText, ReadFlag;
    var r4 := PutNumber(t.deltaFrequency, 4) + rest;
    var r3 := PutNumber(t.deltaTime, 8) + r4;
    var r2 := PutNumber(t.snr % 0x1_0000_0000, 4) + r3;
    var r1 := PutNumber(t.time, 4) + r2;
    FlagBack(pkt, i, t.isNew, r1);
    var i1 := i + 1;
    NumberBack(pkt, i1, t.time, 4, r2);
    var i2 := i1 + 4;
    NumberBack(pkt, i2, t.snr % 0x1_0000_0000, 4, r3);
    var i3 := i2 + 4;
    NumberBack(pkt, i3, t.deltaTime, 8, r4);
    var i4 := i3 + 8;
    NumberBack(pkt, i4, t.deltaFrequency, 4, rest);
  }

  lemma MessageBack(pkt: seq<Byte>, i: nat, t: Text, rest: seq<Byte>)
    requires i <= |pkt| && pkt[i..] == PutMessage(t, rest) && FitsMessage(t)
    ensures var r := ReadMessage(pkt, i);
            r.Some? && r.value.0 == t && r.value.1 <= |pkt| && pkt[r.value.1..] == rest
  {
    hide PutNumber, PutText, PutFlag, ReadNumber, ReadText, ReadFlag;
    var r3 := PutFlag(t.offAir) + rest;
    var r2 := PutFlag(t.lowConfidence) + r3;
    var r1 := PutText(t.message) + r2;
    TextBack(pkt, i, t.mode, r1);
    var i1 := i + 4 + |t.mode|;
    TextBack(pkt, i1, t.message, r2);
    var i2 := i1 + 4 + |t.message|;
    FlagBack(pkt, i2, t.lowConfidence, r3);
    var i3 := i2 + 1;
    FlagBack(pkt, i3, t.offAir, rest);
  }

  // ---------- Status messages ----------

  function PutStatus(d: Dial, a: Activity, s: Station, t: Tail): seq<Byte> {
    PutDial(d, PutActivity(a, PutStation(s, PutTail(t))))
  }

  /** A status message in the documented layout comes back field by field; the text that the
      source takes for the transmit message is that message exactly when the configuration name
      before it is seven bytes long. */
  lemma StatusRoundTrip(h: Header, d: Dial, a: Activity, s: Station, t: Tail)
    requires FitsHeader(h) && FitsDial(d) && FitsActivity(a) && FitsStation(s)
    ensures var pkt := PutHeader(h, PutStatus(d, a, s, t));
            var head := ReadHeader(pkt, 0);
            && head.Some? && head.value.0 == h
            && var r := ReadStatus(pkt, head.value.1);
            && (r.Some? <==> |t.configuration| + |t.txMessage| >= 7)
            && (r.Some? ==> r.value.dial == d && r.value.activity == a && r.value.station == s)
            && (r.Some? && r.value.defaultTxMessage == t.txMessage <==> |t.configuration| == 7)
  {
    hide PutDial, PutActivity, PutStation, PutTail, ReadDial, ReadActivity, ReadStation, PutHeader, ReadHeader;
    var body := PutStatus(d, a, s, t);
    var pkt := PutHeader(h, body);
    assert pkt[0..] == pkt;
    HeaderBack(pkt, 0, h, body);
    var i := ReadHeader(pkt, 0).value.1;
    DialBack(pkt, i, d, PutActivity(a, PutStation(s, PutTail(t))));
    var i1 := ReadDial(pkt, i).value.1;
    ActivityBack(pkt, i1, a, PutStation(s, PutTail(t)));
    var i2 := ReadActivity(pkt, i1).value.1;
    StationBack(pkt, i2, s, PutTail(t));
    var i3 := ReadStation(pkt, i2).value.1;
    TailMessage(pkt, i3, t);
  }

  /** The last 24 bytes before the transmit message hold one byte, three numbers, a length and
      seven bytes of configuration name. */
  lemma TailMessage(pkt: seq<Byte>, i: nat, t: Tail)
    requires i <= |pkt| && pkt[i..] == PutTail(t)
    ensures var r := ReadDefaultTxMessage(pkt, i);
            && (r.Some? <==> |t.configuration| + |t.txMessage| >= 7)
            && (r.Some? && r.value == t.txMessage <==> |t.configuration| == 7)
  {
    var front := [t.specialMode] + PutNumber(t.tolerance, 4) + PutNumber(t.period, 4) + PutText(t.configuration);
    var message := PutText(t.txMessage);
    assert PutTail(t) == front + message;
    assert |front| == 13 + |t.configuration| && |message| == 4 + |t.txMessage|;
    assert |pkt| == i + 17 + |t.configuration| + |t.txMessage|;
    if |t.configuration| == 7 {
      assert pkt[i + 24..] == pkt[i..][24..] == message[4..] == t.txMessage;
    }
  }

  /** Without a configuration name the first seven bytes of the transmit message are lost. */
  lemma ShortConfigurationExample(pkt: seq<Byte>)
    requires pkt == PutTail(Tail(0, 0, 0, [], [67, 81, 32, 71, 52, 65, 72, 78]))
    ensures ReadDefaultTxMessage(pkt, 0) == Some([78])
  {
    var message := PutText([67, 81, 32, 71, 52, 65, 72, 78]);
    assert |pkt| == 25 && pkt[24..] == [pkt[24]];
    assert pkt[24] == message[11] == 78;
  }

  // ---------- Decoded transmissions ----------

  lemma SpotRoundTrip(h: Header, s: Spot, extra: seq<Byte>)
    requires FitsHeader(h) && FitsTiming(s.timing) && FitsMessage(s.text)
    ensures var pkt := PutHeader(h, PutTiming(s.timing, PutMessage(s.text, extra)));
            var head := ReadHeader(pkt, 0);
            && head.Some? && head.value.0 == h
            && var r := ReadSpot(pkt, head.value.1);
            r.Some? && r.value.0 == s && r.value.1 + |extra| == |pkt|
  {
    hide PutTiming, PutMessage, ReadTiming, ReadMessage, PutHeader, ReadHeader;
    var body := PutTiming(s.timing, PutMessage(s.text, extra));
    var pkt := PutHeader(h, body);
    assert pkt[0..] == pkt;
    HeaderBack(pkt, 0, h, body);
    var i := ReadHeader(pkt, 0).value.1;
    TimingBack(pkt, i, s.timing, PutMessage(s.text, extra));
    MessageBack(pkt, ReadTiming(pkt, i).value.1, s.text, extra);
  }

  // ---------- Fields added at the end of a message are ignored ----------

  /** What a reader has found it also finds in a longer datagram. */
  predicate Kept<T(==)>(short: Option<T>, long: Option<T>) {
    short.Some? ==> long == short
  }

  lemma NumberKept(pkt: seq<Byte>, extra: seq<Byte>, i: nat, n: nat)
    ensures Kept(ReadNumber(pkt, i, n), ReadNumber(pkt + extra, i, n))
  {
    if i + n <= |pkt| {
      assert (pkt + extra)[i..i + n] == pkt[i..i + n];
    }
  }

  lemma TextKept(pkt: seq<Byte>, extra: seq<Byte>, i: nat)
    ensures Kept(ReadText(pkt, i), ReadText(pkt + extra, i))
  {
    NumberKept(pkt, extra, i, 4);
    if ReadText(pkt, i).Some? {
      var (n, j) := ReadNumber(pkt, i, 4).value;
      var length := Signed32(n);
      if length > 0 {
        assert (pkt + extra)[j..j + length] == pkt[j..j + length];
      }
    }
  }

  lemma FlagKept(pkt: seq<Byte>, extra: seq<Byte>, i: nat)
    ensures Kept(ReadFlag(pkt, i), ReadFlag(pkt + extra, i))
  {
  }

  lemma HeaderKept(pkt: seq<Byte>, extra: seq<Byte>, i: nat)
    ensures Kept(ReadHeader(pkt, i), ReadHeader(pkt + extra, i))
  {
    hide ReadNumber, ReadText;
    NumberKept(pkt, extra, i, 4);
    if ReadHeader(pkt, i).Some? {
      var i1 := ReadNumber(pkt, i, 4).value.1;
      NumberKept(pkt, extra, i1, 4);
      var i2 := ReadNumber(pkt, i1, 4).value.1;
      NumberKept(pkt, extra, i2, 4);
      TextKept(pkt, extra, ReadNumber(pkt, i2, 4).value.1);
    }
  }

  lemma TimingKept(pkt: seq<Byte>, extra: seq<Byte>, i: nat)
    ensures Kept(ReadTiming(pkt, i), ReadTiming(pkt + extra, i))
  {
    hide ReadNumber, ReadFlag;
    FlagKept(pkt, extra, i);
    if ReadTiming(pkt, i).Some? {
      var i1 := ReadFlag(pkt, i).value.1;
      NumberKept(pkt, extra, i1, 4);
      var i2 := ReadNumber(pkt, i1, 4).value.1;
      NumberKept(pkt, extra, i2, 4);
      var i3 := ReadNumber(pkt, i2, 4).value.1;
      NumberKept(pkt, extra, i3, 8);
      NumberKept(pkt, extra, ReadNumber(pkt, i3, 8).value.1, 4);
    }
  }

  lemma MessageKept(pkt: seq<Byte>, extra: seq<Byte>, i: nat)
    ensures Kept(ReadMessage(pkt, i), ReadMessage(pkt + extra, i))
  {
    hide ReadText, ReadFlag;
    TextKept(pkt, extra, i);
    if ReadMessage(pkt, i).Some? {
      var i1 := ReadText(pkt, i).value.1;
      TextKept(pkt, extra, i1);
      var i2 := ReadText(pkt, i1).value.1;
      FlagKept(pkt, extra, i2);
      FlagKept(pkt, extra, ReadFlag(pkt, i2).value.1);
    }
  }

  lemma SpotKept(pkt: seq<Byte>, extra: seq<Byte>, i: nat)
    ensures Kept(ReadSpot(pkt, i), ReadSpot(pkt + extra, i))
  {
    hide ReadTiming, ReadMessage;
    TimingKept(pkt, extra, i);
    if ReadTiming(pkt, i).Some? {
      MessageKept(pkt, extra, ReadTiming(pkt, i).value.1);
    }
  }

  /** A whole datagram: the header, the decoded transmission and where the reading stops. */
  function ReadSpotDatagram(pkt: seq<Byte>): Option<(Header, Spot, nat)> {
    var (header, i) :- ReadHeader(pkt, 0);
    var (spot, j) :- ReadSpot(pkt, i);
    Some((header, spot, j))
  }

  /** Every datagram, well formed or not, whose header and decode record can be read keeps both when
      bytes are added at its end. */
  lemma SpotIgnoresExtra(pkt: seq<Byte>, extra: seq<Byte>)
    ensures Kept(ReadSpotDatagram(pkt), ReadSpotDatagram(pkt + extra))
  {
    hide ReadHeader, ReadSpot;
    HeaderKept(pkt, extra, 0);
    if ReadHeader(pkt, 0).Some? {
      SpotKept(pkt, extra, ReadHeader(pkt, 0).value.1);
    }
  }
}
