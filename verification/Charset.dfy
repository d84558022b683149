/** The hand-written transcoders of nana: decoders that advance through bytes, encoders that
    append bytes, and the converters that loop over both. */
module Charset {
  import opened Options

  type Byte = bv8
  /** `unsigned long` is 32 bits wide on Windows. */
  type Code = bv32

  // ---------- Encoders ----------

  function Low8(c: Code): Byte {
    (c & 0xFF) as Byte
  }

  function Put8(c: Code): (s: seq<Byte>)
    ensures |s| > 0
  {
    if c < 0x80 then [Low8(c)]
    else if c < 0x800 then [Low8(0xC0 | (c >> 6)), Low8(0x80 | (c & 0x3F))]
    else if c < 0x10000 then
      [Low8(0xE0 | (c >> 12)), Low8(0x80 | ((c >> 6) & 0x3F)), Low8(0x80 | (c & 0x3F))]
    else
      [Low8(0xF0 | (c >> 18)), Low8(0x80 | ((c >> 12) & 0x3F)), Low8(0x80 | ((c >> 6) & 0x3F)), Low8(0x80 | (c & 0x3F))]
  }

  function Unit16(u: Code, le: bool): (s: seq<Byte>)
    ensures |s| == 2
  {
    if le then [Low8(u), Low8((u & 0xFF00) >> 8)] else [Low8((u & 0xFF00) >> 8), Low8(u)]
  }

  /** The two units of a surrogate pair. */
  function HighUnit(offset: Code): Code {
    0xD800 | (offset >> 10)
  }

  function LowUnit(offset: Code): Code {
    0xDC00 | (offset & 0x3FF)
  }

  function Put16(c: Code, le: bool): (s: seq<Byte>)
    ensures |s| == if c <= 0xFFFF then 2 else 4
  {
    if c <= 0xFFFF then Unit16(c, le)
    else Unit16(HighUnit(c - 0x10000), le) + Unit16(LowUnit(c - 0x10000), le)
  }

  function Put32(c: Code, le: bool): (s: seq<Byte>)
    ensures |s| == 4
  {
    var b0, b1, b2, b3 := Low8(c), Low8((c & 0xFF00) >> 8), Low8((c & 0xFF0000) >> 16), Low8((c & 0xFF000000) >> 24);
    if le then [b0, b1, b2, b3] else [b3, b2, b1, b0]
  }

  datatype Form = Utf8 | Utf16(le: bool) | Utf32(le: bool)

  function Put(c: Code, form: Form): (s: seq<Byte>)
    ensures |s| > 0
  {
    match form
    case Utf8 => Put8(c)
    case Utf16(le) => Put16(c, le)
    case Utf32(le) => Put32(c, le)
  }

  /** A whole text: the codes written one after the other. */
  function Encode(cs: seq<Code>, form: Form): seq<Byte> {
    if cs == [] then [] else Put(cs[0], form) + Encode(cs[1..], form)
  }

  // ---------- Decoders: the code at p and where the next one starts ----------

  /** The byte at i; a std::string has a zero at its end. */
  function At(s: seq<Byte>, i: nat): Byte
    requires i <= |s|
  {
    if i < |s| then s[i] else 0
  }

  function Cont(b: Byte): Code {
    (b & 0x3F) as Code
  }

  /** The bits that two and three bytes carry. */
  function TwoBits(b0: Byte, b1: Byte): Code {
    (((b0 & 0x1F) as Code) << 6) | Cont(b1)
  }

  function ThreeBits(b0: Byte, b1: Byte, b2: Byte): Code {
    (((((b0 & 0xF) as Code) << 6) | Cont(b1)) << 6) | Cont(b2)
  }

  /** `utf8char`. The next start can be |s| + 1, past the end. `police` is the pluggable answer
      to a byte that starts no character; it advances by one byte. The source's test for four
      bytes, `ch < 0x1F`, is never true there, so those leads take its last branch. */
  function Get8(s: seq<Byte>, p: nat, police: (seq<Byte>, nat) -> Code): (r: (Code, nat))
    requires p < |s|
    ensures p < r.1 <= |s| + 1
  {
    var b := s[p];
    if b < 0x80 then (b as Code, p + 1)
    else if b < 0xC0 then (police(s, p), p + 1)
    else if b < 0xE0 then (TwoBits(b, At(s, p + 1)), p + 2)
    else if b < 0xF0 && p + 2 <= |s| then (ThreeBits(b, s[p + 1], At(s, p + 2)), p + 3)
    else (0, |s|)
  }

  function Pair(high: Byte, low: Byte): Code {
    ((high as Code) << 8) | (low as Code)
  }

  /** The twenty bits that two units of a surrogate pair carry. */
  function PairBits(high: Code, low: Code): Code {
    ((high & 0x3FF) << 10) | (low & 0x3FF)
  }

  /** `utf16char`. The little-endian branch does not add 0x10000 to a surrogate pair. */
  function Get16(s: seq<Byte>, p: nat, le: bool): (r: (Code, nat))
    requires p < |s|
    ensures p < r.1 <= |s|
  {
    var lead := if le then 1 else 0;
    if |s| - p >= 4 && (s[p + lead] & 0xFC) == 0xD8 then
      var ch0 := if le then Pair(s[p + 1], s[p]) else Pair(s[p], s[p + 1]);
      var ch1 := if le then Pair(s[p + 3], s[p + 2]) else Pair(s[p + 2], s[p + 3]);
      var c := PairBits(ch0, ch1);
      (if le then c else c + 0x10000, p + 4)
    else if |s| - p >= 2 then (if le then Pair(s[p + 1], s[p]) else Pair(s[p], s[p + 1]), p + 2)
    else (0, |s|)
  }

  function Get32(s: seq<Byte>, p: nat, le: bool): (r: (Code, nat))
    requires p < |s|
    ensures p < r.1 <= |s|
  {
    if |s| - p >= 4 then
      (if le then (Pair(s[p + 3], s[p + 2]) << 16) | Pair(s[p + 1], s[p])
       else (Pair(s[p], s[p + 1]) << 16) | Pair(s[p + 2], s[p + 3]), p + 4)
    else (0, |s|)
  }

  /** The pluggable answer to a byte that starts no UTF-8 character. */
  type Police = (seq<Byte>, nat) -> Code

  function Get(s: seq<Byte>, p: nat, form: Form, police: Police): (r: (Code, nat))
    requires p < |s|
    ensures p < r.1 <= |s| + 1
    ensures form != Utf8 ==> r.1 <= |s|
  {
    match form
    case Utf8 => Get8(s, p, police)
    case Utf16(le) => Get16(s, p, le)
    case Utf32(le) => Get32(s, p, le)
  }

  /** The codes of s from p on; None when the pointer steps over the end, where the source
      goes on reading past its buffer. */
  function Decode(s: seq<Byte>, p: nat, form: Form, police: Police): (r: Option<seq<Code>>)
    requires p <= |s| + 1
    ensures form != Utf8 && p <= |s| ==> r.Some?
    decreases |s| + 1 - p
  {
    if p == |s| then Some([])
    else if p > |s| then None
    else
      var (c, next) := Get(s, p, form, police);
      match Decode(s, next, form, police)
      case None => None
      case Some(cs) => Some([c] + cs)
  }

  // ---------- The converters, as functions of the whole text ----------

  predicate BigEndian16(s: seq<Byte>) {
    |s| >= 2 && s[0] == 0xFE && s[1] == 0xFF
  }

  predicate BigEndian32(s: seq<Byte>) {
    |s| >= 4 && s[0] == 0 && s[1] == 0 && s[2] == 0xFE && s[3] == 0xFF
  }

  /** The source drops what is left over from the last four bytes. */
  function Whole32(s: seq<Byte>): seq<Byte> {
    s[..|s| / 4 * 4]
  }

  /** What has been written, followed by the given codes in the other form. */
  function Append(out: seq<Byte>, cs: Option<seq<Code>>, to: Form): Option<seq<Byte>> {
    match cs
    case None => None
    case Some(codes) => Some(out + Encode(codes, to))
  }

  function Convert(s: seq<Byte>, from: Form, to: Form, police: Police): Option<seq<Byte>> {
    Append([], Decode(s, 0, from, police), to)
  }

  /** UTF-16 is read in the byte order that its mark, or the lack of one, selects. */
  function From16(s: seq<Byte>): Form {
    Utf16(!BigEndian16(s))
  }

  function Convert16To8(s: seq<Byte>, police: Police): Option<seq<Byte>> {
    Convert(s, From16(s), Utf8, police)
  }

  function Convert16To32(s: seq<Byte>, police: Police): Option<seq<Byte>> {
    Convert(s, From16(s), Utf32(From16(s).le), police)
  }

  function Convert32To8(s: seq<Byte>, police: Police): Option<seq<Byte>> {
    Convert(Whole32(s), Utf32(!BigEndian32(s)), Utf8, police)
  }

  function Convert32To16(s: seq<Byte>, police: Police): Option<seq<Byte>> {
    Convert(Whole32(s), Utf32(!BigEndian32(s)), Utf16(!BigEndian32(s)), police)
  }

  lemma AppendStep(out: seq<Byte>, s: seq<Byte>, p: nat, from: Form, to: Form, police: Police)
    requires p < |s|
    ensures var (c, next) := Get(s, p, from, police);
            Append(out, Decode(s, p, from, police), to) == Append(out + Put(c, to), Decode(s, next, from, police), to)
  {
    var (c, next) := Get(s, p, from, police);
    match Decode(s, next, from, police) {
      case None =>
      case Some(cs) =>
        assert ([c] + cs)[1..] == cs;
        assert out + (Put(c, to) + Encode(cs, to)) == out + Put(c, to) + Encode(cs, to);
    }
  }

  lemma AppendDone(out: seq<Byte>, to: Form)
    ensures Append(out, Some([]), to) == Some(out)
  {
    assert out + [] == out;
  }

  /** A byte order mark is U+FEFF to the decoder that it selects, so treating it apart changes nothing. */
  lemma MarkIsCode(s: seq<Byte>, from: Form, to: Form, police: Police)
    requires match from
             case Utf8 => |s| >= 3 && s[..3] == [0xEF, 0xBB, 0xBF]
             case Utf16(le) => |s| >= 2 && s[..2] == if le then [0xFF, 0xFE] else [0xFE, 0xFF]
             case Utf32(le) => |s| >= 4 && s[..4] == if le then [0xFF, 0xFE, 0, 0] else [0, 0, 0xFE, 0xFF]
    ensures Get(s, 0, from, police) == (0xFEFF, match from case Utf8 => 3 case Utf16(_) => 2 case Utf32(_) => 4)
    ensures Convert(s, from, to, police)
            == Append(Put(0xFEFF, to), Decode(s, Get(s, 0, from, police).1, from, police), to)
    ensures Put8(0xFEFF) == [0xEF, 0xBB, 0xBF]
  {
    match from {
      case Utf8 =>
        assert s[0] == s[..3][0] && s[1] == s[..3][1] && s[2] == s[..3][2];
      case Utf16(le) =>
        assert s[0] == s[..2][0] && s[1] == s[..2][1];
      case Utf32(le) =>
        assert s[0] == s[..4][0] && s[1] == s[..4][1] && s[2] == s[..4][2] && s[3] == s[..4][3];
    }
    AppendStep([], s, 0, from, to, police);
    assert [] + Put(0xFEFF, to) == Put(0xFEFF, to);
  }

  /** Up to three bytes behind the last whole code of UTF-32 are dropped. */
  lemma LeftoverDropped(s: seq<Byte>, left: seq<Byte>, police: Police)
    requires |s| % 4 == 0 && |left| < 4
    ensures Convert32To8(s + left, police) == Convert32To8(s, police)
    ensures Convert32To16(s + left, police) == Convert32To16(s, police)
  {
    assert Whole32(s + left) == Whole32(s) == s;
    hide Convert;
    assert BigEndian32(s + left) == BigEndian32(s);
  }

  // ---------- The converters, as the source writes them, with their byte order marks ----------

  method Utf8ToUtf16(s: seq<Byte>, le: bool, police: Police) returns (r: Option<seq<Byte>>)
    ensures r == Convert(s, Utf8, Utf16(le), police)
  {
    var p, out: seq<Byte> := 0, [];
    if |s| >= 3 && s[0] == 0xEF && s[1] == 0xBB && s[2] == 0xBF {
      MarkIsCode(s, Utf8, Utf16(le), police);
      p, out := 3, Put16(0xFEFF, le);
    }
    while p != |s|
      invariant p <= |s|
      invariant Convert(s, Utf8, Utf16(le), police) == Append(out, Decode(s, p, Utf8, police), Utf16(le))
    {
      AppendStep(out, s, p, Utf8, Utf16(le), police);
      var (c, next) := Get8(s, p, police);
      p, out := next, out + Put16(c, le);
      if p > |s| {
        return None;
      }
    }
    AppendDone(out, Utf16(le));
    return Some(out);
  }

  method Utf8ToUtf32(s: seq<Byte>, le: bool, police: Police) returns (r: Option<seq<Byte>>)
    ensures r == Convert(s, Utf8, Utf32(le), police)
  {
    var p, out: seq<Byte> := 0, [];
    if |s| >= 3 && s[0] == 0xEF && s[1] == 0xBB && s[2] == 0xBF {
      MarkIsCode(s, Utf8, Utf32(le), police);
      p, out := 3, Put32(0xFEFF, le);
    }
    while p != |s|
      invariant p <= |s|
      invariant Convert(s, Utf8, Utf32(le), police) == Append(out, Decode(s, p, Utf8, police), Utf32(le))
    {
      AppendStep(out, s, p, Utf8, Utf32(le), police);
      var (c, next) := Get8(s, p, police);
      p, out := next, out + Put32(c, le);
      if p > |s| {
        return None;
      }
    }
    AppendDone(out, Utf32(le));
    return Some(out);
  }

  method Utf16ToUtf8(s: seq<Byte>, ghost police: Police) returns (r: seq<Byte>)
    ensures Some(r) == Convert16To8(s, police)
  {
    ghost var from := Utf16(!BigEndian16(s));
    var p, le := 0, true;
    r := [];
    if |s| >= 2 {
      if s[0] == 0xFF && s[1] == 0xFE {
        MarkIsCode(s, from, Utf8, police);
        p, le, r := 2, true, [0xEF, 0xBB, 0xBF];
      } else if s[0] == 0xFE && s[1] == 0xFF {
        MarkIsCode(s, from, Utf8, police);
        p, le, r := 2, false, [0xEF, 0xBB, 0xBF];
      }
    }
    while p != |s|
      invariant p <= |s| && from == Utf16(le)
      invariant Convert(s, from, Utf8, police) == Append(r, Decode(s, p, from, police), Utf8)
    {
      AppendStep(r, s, p, from, Utf8, police);
      var (c, next) := Get16(s, p, le);
      p, r := next, r + Put8(c);
    }
    AppendDone(r, Utf8);
  }

  method Utf16ToUtf32(s: seq<Byte>, ghost police: Police) returns (r: seq<Byte>)
    ensures Some(r) == Convert16To32(s, police)
  {
    ghost var from, to := Utf16(!BigEndian16(s)), Utf32(!BigEndian16(s));
    var p, le := 0, true;
    r := [];
    if |s| >= 2 {
      if s[0] == 0xFF && s[1] == 0xFE {
        MarkIsCode(s, from, to, police);
        p, le, r := 2, true, Put32(0xFEFF, true);
      } else if s[0] == 0xFE && s[1] == 0xFF {
        MarkIsCode(s, from, to, police);
        p, le, r := 2, false, Put32(0xFEFF, false);
      }
    }
    while p != |s|
      invariant p <= |s| && from == Utf16(le) && to == Utf32(le)
      invariant Convert(s, from, to, police) == Append(r, Decode(s, p, from, police), to)
    {
      AppendStep(r, s, p, from, to, police);
      var (c, next) := Get16(s, p, le);
      p, r := next, r + Put32(c, le);
    }
    AppendDone(r, to);
  }

  method Utf32ToUtf8(text: seq<Byte>, ghost police: Police) returns (r: seq<Byte>)
    ensures Some(r) == Convert32To8(text, police)
  {
    var s := text[..|text| / 4 * 4];
    ghost var from := Utf32(!BigEndian32(text));
    var p, le := 0, true;
    r := [];
    if |text| >= 4 {
      if s[0] == 0 && s[1] == 0 && s[2] == 0xFE && s[3] == 0xFF {
        MarkIsCode(s, from, Utf8, police);
        p, le, r := 4, false, [0xEF, 0xBB, 0xBF];
      } else if s[0] == 0xFF && s[1] == 0xFE && s[2] == 0 && s[3] == 0 {
        MarkIsCode(s, from, Utf8, police);
        p, le, r := 4, true, [0xEF, 0xBB, 0xBF];
      }
    }
    while p < |s|
      invariant p <= |s| && from == Utf32(le)
      invariant Convert(s, from, Utf8, police) == Append(r, Decode(s, p, from, police), Utf8)
    {
      AppendStep(r, s, p, from, Utf8, police);
      var (c, next) := Get32(s, p, le);
      p, r := next, r + Put8(c);
    }
    AppendDone(r, Utf8);
  }

  method Utf32ToUtf16(text: seq<Byte>, ghost police: Police) returns (r: seq<Byte>)
    ensures Some(r) == Convert32To16(text, police)
  {
    var s := text[..|text| / 4 * 4];
    ghost var from, to := Utf32(!BigEndian32(text)), Utf16(!BigEndian32(text));
    var p, le := 0, true;
    r := [];
    if |text| >= 4 {
      if s[0] == 0 && s[1] == 0 && s[2] == 0xFE && s[3] == 0xFF {
        MarkIsCode(s, from, to, police);
        p, le, r := 4, false, Put16(0xFEFF, false);
      } else if s[0] == 0xFF && s[1] == 0xFE && s[2] == 0 && s[3] == 0 {
        MarkIsCode(s, from, to, police);
        p, le, r := 4, true, Put16(0xFEFF, true);
      }
    }
    while p < |s|
      invariant p <= |s| && from == Utf32(le) && to == Utf16(le)
      invariant Convert(s, from, to, police) == Append(r, Decode(s, p, from, police), to)
    {
      AppendStep(r, s, p, from, to, police);
      var (c, next) := Get32(s, p, le);
      p, r := next, r + Put16(c, le);
    }
    AppendDone(r, to);
  }
}
