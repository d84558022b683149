/** The bytes of the three encoding forms, by place value: what section 3 of RFC 3629, section 2.1 of
    RFC 2781 and UTF-32 ask for, and what the decoders make of any bytes at all. */
module CharsetBytes {
  import opened Charset

  /** What a byte carries besides its tag. */
  function Less(b: Byte, tag: Byte): Code {
    (b - tag) as Code
  }

  /** Six more bits behind those that are there. Sums of these stay far below 2^32. */
  function Six(front: Code, bits: Code): Code {
    64 * front + bits
  }

  // ---------- UTF-8 ----------

  predicate IsTail(b: Byte) {
    0x80 <= b <= 0xBF
  }

  predicate IsTwo(s0: Byte, s1: Byte, c: Code) {
    && 0x80 <= c < 0x800 && 0xC2 <= s0 <= 0xDF && IsTail(s1)
    && Six(Less(s0, 0xC0), Less(s1, 0x80)) == c
  }

  predicate IsThree(s0: Byte, s1: Byte, s2: Byte, c: Code) {
    && 0x800 <= c < 0x10000 && 0xE0 <= s0 <= 0xEF && IsTail(s1) && IsTail(s2)
    && Six(Six(Less(s0, 0xE0), Less(s1, 0x80)), Less(s2, 0x80)) == c
  }

  predicate IsFour(s0: Byte, s1: Byte, s2: Byte, s3: Byte, c: Code) {
    && 0x10000 <= c <= 0x10FFFF && 0xF0 <= s0 <= 0xF4 && IsTail(s1) && IsTail(s2) && IsTail(s3)
    && Six(Six(Six(Less(s0, 0xF0), Less(s1, 0x80)), Less(s2, 0x80)), Less(s3, 0x80)) == c
  }

  /** The bytes that RFC 3629 gives to the character number c: the lead byte tells how many follow, and
      the bits that all of them carry, most significant first, add up to the number. */
  predicate IsUtf8Of(s: seq<Byte>, c: Code) {
    || (|s| == 1 && c < 0x80 && s[0] as Code == c)
    || (|s| == 2 && IsTwo(s[0], s[1], c))
    || (|s| == 3 && IsThree(s[0], s[1], s[2], c))
    || (|s| == 4 && IsFour(s[0], s[1], s[2], s[3], c))
  }

  lemma TailRange(x: Code)
    ensures IsTail(Low8(0x80 | (x & 0x3F)))
  {
  }

  lemma LeadRange(c: Code)
    ensures c < 0x80 ==> Low8(c) as Code == c
    ensures 0x80 <= c < 0x800 ==> 0xC2 <= Low8(0xC0 | (c >> 6)) <= 0xDF
    ensures 0x800 <= c < 0x10000 ==> 0xE0 <= Low8(0xE0 | (c >> 12)) <= 0xEF
    ensures 0x10000 <= c <= 0x10FFFF ==> 0xF0 <= Low8(0xF0 | (c >> 18)) <= 0xF4
  {
  }

  lemma TwoSum(c: Code)
    requires 0x80 <= c < 0x800
    ensures Six(Less(Low8(0xC0 | (c >> 6)), 0xC0), Less(Low8(0x80 | (c & 0x3F)), 0x80)) == c
  {
  }

  lemma ThreeSum(c: Code)
    requires 0x800 <= c < 0x10000
    ensures Six(Six(Less(Low8(0xE0 | (c >> 12)), 0xE0), Less(Low8(0x80 | ((c >> 6) & 0x3F)), 0x80)),
                Less(Low8(0x80 | (c & 0x3F)), 0x80)) == c
  {
  }

  lemma FourSum(c: Code)
    requires 0x10000 <= c <= 0x10FFFF
    ensures Six(Six(Six(Less(Low8(0xF0 | (c >> 18)), 0xF0), Less(Low8(0x80 | ((c >> 12) & 0x3F)), 0x80)),
                    Less(Low8(0x80 | ((c >> 6) & 0x3F)), 0x80)),
                Less(Low8(0x80 | (c & 0x3F)), 0x80)) == c
  {
  }

  lemma ThreeBytes(c: Code)
    requires 0x800 <= c < 0x10000
    ensures IsThree(Low8(0xE0 | (c >> 12)), Low8(0x80 | ((c >> 6) & 0x3F)), Low8(0x80 | (c & 0x3F)), c)
  {
    ThreeSum(c);
    LeadRange(c);
    TailRange(c >> 6);
    TailRange(c);
    hide Low8, Less, Six, IsTail;
  }

  lemma FourBytes(c: Code)
    requires 0x10000 <= c <= 0x10FFFF
    ensures IsFour(Low8(0xF0 | (c >> 18)), Low8(0x80 | ((c >> 12) & 0x3F)), Low8(0x80 | ((c >> 6) & 0x3F)),
                   Low8(0x80 | (c & 0x3F)), c)
  {
    FourSum(c);
    LeadRange(c);
    TailRange(c >> 12);
    TailRange(c >> 6);
    TailRange(c);
    hide Low8, Less, Six, IsTail;
  }

  /** Every character number is written as RFC 3629 says. */
  lemma Put8IsUtf8(c: Code)
    requires c <= 0x10FFFF
    ensures IsUtf8Of(Put8(c), c)
  {
    LeadRange(c);
    hide Low8, IsThree, IsFour, Less, Six, IsTail;
    if 0x80 <= c < 0x800 {
      TwoSum(c);
      TailRange(c);
    } else if 0x800 <= c < 0x10000 {
      ThreeBytes(c);
    } else if 0x10000 <= c {
      FourBytes(c);
    }
  }

  /** The text is cut into the bytes that RFC 3629 gives to the characters, one behind the other. */
  ghost predicate IsUtf8Text(s: seq<Byte>, cs: seq<Code>) {
    if cs == [] then s == []
    else exists k: nat | k <= |s| :: IsUtf8Of(s[..k], cs[0]) && IsUtf8Text(s[k..], cs[1..])
  }

  /** What the converters append: a whole text in UTF-8. */
  lemma {:induction false} EncodeIsUtf8(cs: seq<Code>)
    requires forall i | 0 <= i < |cs| :: cs[i] <= 0x10FFFF
    ensures IsUtf8Text(Encode(cs, Utf8), cs)
  {
    hide Put8, IsUtf8Of;
    if cs != [] {
      Put8IsUtf8(cs[0]);
      EncodeIsUtf8(cs[1..]);
      var first, s := Put8(cs[0]), Encode(cs, Utf8);
      assert s[..|first|] == first && s[|first|..] == Encode(cs[1..], Utf8);
    }
  }

  /** Two examples: U+00E9 and U+1F600. */
  lemma Utf8Example()
    ensures Put8(0xE9) == [0xC3, 0xA9] && Put8(0x1F600) == [0xF0, 0x9F, 0x98, 0x80]
  {
  }

  // ---------- UTF-16 and UTF-32 ----------

  /** A 16-bit unit from its two bytes. */
  function Unit(high: Byte, low: Byte): Code {
    256 * (high as Code) + low as Code
  }

  /** The unit that starts at byte i. */
  function UnitAt(s: seq<Byte>, i: nat, le: bool): Code
    requires i + 1 < |s|
  {
    if le then Unit(s[i + 1], s[i]) else Unit(s[i], s[i + 1])
  }

  predicate IsLead(u: Code) {
    0xD800 <= u <= 0xDBFF
  }

  predicate IsTrail(u: Code) {
    0xDC00 <= u <= 0xDFFF
  }

  /** Ten more bits behind those that are there. */
  function Ten(front: Code, bits: Code): Code {
    0x400 * front + bits
  }

  /** A lead and a trail surrogate that stand for 0x10000 and the offset. */
  predicate IsSurrogatePair(high: Code, low: Code, offset: Code) {
    IsLead(high) && IsTrail(low) && Ten(high - 0xD800, low - 0xDC00) == offset
  }

  /** The bytes that RFC 2781 gives to the character number c. */
  predicate IsUtf16Of(s: seq<Byte>, c: Code, le: bool) {
    || (|s| == 2 && c < 0x10000 && UnitAt(s, 0, le) == c)
    || (|s| == 4 && c >= 0x10000 && IsSurrogatePair(UnitAt(s, 0, le), UnitAt(s, 2, le), c - 0x10000))
  }

  lemma UnitIs(u: Code, le: bool)
    requires u < 0x10000
    ensures UnitAt(Unit16(u, le), 0, le) == u
  {
  }

  lemma UnitBehind(s: seq<Byte>, t: seq<Byte>, le: bool)
    requires |s| == |t| == 2
    ensures UnitAt(s + t, 0, le) == UnitAt(s, 0, le) && UnitAt(s + t, 2, le) == UnitAt(t, 0, le)
  {
    hide Unit;
  }

  lemma UnitRange(offset: Code)
    requires offset < 0x100000
    ensures IsLead(HighUnit(offset)) && IsTrail(LowUnit(offset))
    ensures HighUnit(offset) < 0x10000 && LowUnit(offset) < 0x10000
  {
  }

  lemma UnitSum(offset: Code)
    requires offset < 0x100000
    ensures Ten(HighUnit(offset) - 0xD800, LowUnit(offset) - 0xDC00) == offset
  {
  }

  lemma TwoUnits(offset: Code)
    requires offset < 0x100000
    ensures IsSurrogatePair(HighUnit(offset), LowUnit(offset), offset)
    ensures HighUnit(offset) < 0x10000 && LowUnit(offset) < 0x10000
  {
    UnitRange(offset);
    UnitSum(offset);
    hide HighUnit, LowUnit, IsLead, IsTrail, Ten;
  }

  lemma OffsetRange(c: Code)
    requires 0x10000 <= c <= 0x10FFFF
    ensures c - 0x10000 < 0x100000
  {
  }

  lemma PairIsWritten(high: Code, low: Code, offset: Code, le: bool)
    requires high < 0x10000 && low < 0x10000 && IsSurrogatePair(high, low, offset)
    ensures var s := Unit16(high, le) + Unit16(low, le);
            |s| == 4 && IsSurrogatePair(UnitAt(s, 0, le), UnitAt(s, 2, le), offset)
  {
    UnitIs(high, le);
    UnitIs(low, le);
    UnitBehind(Unit16(high, le), Unit16(low, le), le);
    hide Unit16, UnitAt, IsSurrogatePair;
  }

  /** Every character number is written as RFC 2781 says, in either byte order. */
  lemma Put16IsUtf16(c: Code, le: bool)
    requires c <= 0x10FFFF
    ensures IsUtf16Of(Put16(c, le), c, le)
  {
    if c <= 0xFFFF {
      hide Unit16, UnitAt, IsSurrogatePair;
      UnitIs(c, le);
    } else {
      var offset := c - 0x10000;
      OffsetRange(c);
      TwoUnits(offset);
      hide Unit16, UnitAt, HighUnit, LowUnit, IsSurrogatePair;
      PairIsWritten(HighUnit(offset), LowUnit(offset), offset, le);
    }
  }

  function Number(high: Code, low: Code): Code {
    0x10000 * high + low
  }

  /** The 32-bit number that starts at byte i. */
  function NumberAt(s: seq<Byte>, i: nat, le: bool): Code
    requires i + 3 < |s|
  {
    if le then Number(UnitAt(s, i + 2, le), UnitAt(s, i, le)) else Number(UnitAt(s, i, le), UnitAt(s, i + 2, le))
  }

  lemma Put32IsUtf32(c: Code, le: bool)
    ensures |Put32(c, le)| == 4 && NumberAt(Put32(c, le), 0, le) == c
  {
  }

  // ---------- What the decoders make of any bytes ----------

  /** The six bits of the byte at i, or of the zero behind the end of the text. */
  function SixBits(s: seq<Byte>, i: nat): Code {
    if i < |s| then s[i] as Code % 64 else 0
  }

  /** `utf8char` by place value, whatever the bytes: it does not ask whether the bytes behind a lead byte
      are continuation bytes, and behind the end of the text stands a zero. */
  lemma Get8Reads(s: seq<Byte>, p: nat, police: Police)
    requires p < |s|
    ensures var c := Get8(s, p, police).0;
            && (s[p] < 0x80 ==> c == s[p] as Code)
            && (0xC0 <= s[p] < 0xE0 ==> c == Six(Less(s[p], 0xC0), SixBits(s, p + 1)))
            && (0xE0 <= s[p] < 0xF0 && p + 1 < |s| ==>
                  c == Six(Six(Less(s[p], 0xE0), SixBits(s, p + 1)), SixBits(s, p + 2)))
            && (s[p] >= 0xF0 || (s[p] >= 0xE0 && p + 1 == |s|) ==> c == 0)
  {
  }

  lemma PairIsUnit(high: Byte, low: Byte)
    ensures Pair(high, low) == Unit(high, low) < 0x10000
  {
  }

  lemma LeadByte(high: Byte, low: Byte)
    ensures (high & 0xFC) == 0xD8 <==> IsLead(Unit(high, low))
  {
  }

  /** What a lead unit and the one behind it, whatever that is, carry. */
  function Carried(high: Code, low: Code): Code {
    Ten(high - 0xD800, low % 0x400)
  }

  lemma PairBitsIs(high: Code, low: Code)
    requires IsLead(high)
    ensures PairBits(high, low) == Carried(high, low)
  {
  }

  /** Two units that the sixteen-bit decoder takes together. */
  lemma TwoUnitsRead(a: Byte, b: Byte, c: Byte, d: Byte)
    requires IsLead(Unit(a, b))
    ensures PairBits(Pair(a, b), Pair(c, d)) == Carried(Unit(a, b), Unit(c, d))
  {
    PairIsUnit(a, b);
    PairIsUnit(c, d);
    PairBitsIs(Unit(a, b), Unit(c, d));
    hide Pair, Unit, PairBits, IsLead, Carried;
  }

  /** `utf16char`: any lead unit takes the next unit with it. */
  lemma Get16Reads(s: seq<Byte>, p: nat, le: bool)
    requires p < |s|
    ensures var c := Get16(s, p, le).0;
            if p + 1 == |s| then c == 0
            else if p + 3 < |s| && IsLead(UnitAt(s, p, le)) then
              c == Carried(UnitAt(s, p, le), UnitAt(s, p + 2, le)) + if le then 0 else 0x10000
            else c == UnitAt(s, p, le)
  {
    hide Pair, Unit, PairBits, IsLead, Carried;
    if p + 1 < |s| {
      var high, low := if le then s[p + 1] else s[p], if le then s[p] else s[p + 1];
      PairIsUnit(high, low);
      LeadByte(high, low);
      if p + 3 < |s| && IsLead(UnitAt(s, p, le)) {
        TwoUnitsRead(high, low, if le then s[p + 3] else s[p + 2], if le then s[p + 2] else s[p + 3]);
      }
    }
  }

  lemma NumberIs(high: Code, low: Code)
    requires high < 0x10000 && low < 0x10000
    ensures (high << 16) | low == Number(high, low)
  {
  }

  lemma NumberRead(a: Byte, b: Byte, c: Byte, d: Byte)
    ensures (Pair(a, b) << 16) | Pair(c, d) == Number(Unit(a, b), Unit(c, d))
  {
    PairIsUnit(a, b);
    PairIsUnit(c, d);
    NumberIs(Unit(a, b), Unit(c, d));
    hide Pair, Unit, Number;
  }

  lemma Get32Little(s: seq<Byte>, p: nat)
    requires p + 3 < |s|
    ensures Get32(s, p, true).0 == NumberAt(s, p, true)
  {
    hide Pair, Unit, Number;
    NumberRead(s[p + 3], s[p + 2], s[p + 1], s[p]);
  }

  lemma Get32Big(s: seq<Byte>, p: nat)
    requires p + 3 < |s|
    ensures Get32(s, p, false).0 == NumberAt(s, p, false)
  {
    hide Pair, Unit, Number;
    NumberRead(s[p], s[p + 1], s[p + 2], s[p + 3]);
  }

  lemma Get32Short(s: seq<Byte>, p: nat, le: bool)
    requires p < |s| <= p + 3
    ensures Get32(s, p, le).0 == 0
  {
  }

  /** The four-byte decoder. */
  lemma Get32Reads(s: seq<Byte>, p: nat, le: bool)
    requires p < |s|
    ensures Get32(s, p, le).0 == if p + 3 < |s| then NumberAt(s, p, le) else 0
  {
    hide Get32, NumberAt;
    if |s| <= p + 3 {
      Get32Short(s, p, le);
    } else if le {
      Get32Little(s, p);
    } else {
      Get32Big(s, p);
    }
  }
}
