/** Walking UTF-8 by lead bytes: `is_utf8`, `char_ptr` and `char_at`, and when a decoder
    steps over the end of its text. */
module Utf8Walk {
  import opened Charset
  import opened CharsetRoundTrip
  import opened Options

  // ---------- is_utf8 ----------

  /** How many bytes the lead byte announces; zero for the bytes the walk refuses. */
  function Announced(b: Byte): nat {
    if b < 0x80 then 1 else if b < 0xC0 then 0 else if b < 0xE0 then 2 else if b < 0xF0 then 3 else 0
  }

  /** From p on the text is cut, without remainder, into stretches of the announced lengths. */
  predicate Tiled(s: seq<Byte>, p: nat)
    requires p <= |s|
    decreases |s| - p
  {
    p == |s| || (Announced(s[p]) > 0 && p + Announced(s[p]) <= |s| && Tiled(s, p + Announced(s[p])))
  }

  method IsUtf8(s: seq<Byte>) returns (ok: bool)
    ensures ok <==> Tiled(s, 0)
  {
    var p := 0;
    while p < |s|
      invariant p <= |s| && (Tiled(s, 0) <==> Tiled(s, p))
    {
      var b := s[p];
      if b < 0x80 {
        p := p + 1;
        continue;
      }
      if b < 0xC0 {
        return false;
      }
      if b < 0xE0 && |s| - p > 1 {
        p := p + 2;
      } else if b < 0xF0 && |s| - p > 2 {
        p := p + 3;
      } else {
        return false;
      }
    }
    return true;
  }

  /** A text that `is_utf8` accepts is decoded inside its bounds, and nothing is left to the police. */
  lemma {:induction false} TiledIsDecoded(s: seq<Byte>, p: nat, police: Police, other: Police)
    requires p <= |s| && Tiled(s, p)
    ensures Decode(s, p, Utf8, police).Some?
    ensures Decode(s, p, Utf8, police) == Decode(s, p, Utf8, other)
    decreases |s| - p
  {
    if p < |s| {
      TiledIsDecoded(s, p + Announced(s[p]), police, other);
    }
  }

  /** Where `utf8char` goes next, from a byte at p. */
  function Advance(s: seq<Byte>, p: nat): (q: nat)
    requires p < |s|
    ensures p < q <= |s| + 1
  {
    var n := Announced(s[p]);
    if n == 0 then (if s[p] < 0xC0 then p + 1 else |s|)
    else if n == 3 && p + 2 > |s| then |s|
    else p + n
  }

  /** The decoder, started at p, comes by q. */
  predicate Visits(s: seq<Byte>, p: nat, q: nat)
    requires p <= |s| + 1
    decreases |s| + 1 - p
  {
    p == q || (p < q && p < |s| && Visits(s, Advance(s, p), q))
  }

  /** The last character is cut short by one byte. */
  predicate CutShort(s: seq<Byte>, p: nat, q: nat)
    requires p <= |s| + 1
  {
    q < |s| && Visits(s, p, q) && ((q + 1 == |s| && Announced(s[q]) == 2) || (q + 2 == |s| && Announced(s[q]) == 3))
  }

  /** The UTF-8 converters leave their buffer exactly when the text ends in a character that
      lacks its last byte. */
  lemma {:induction false} OverrunExactly(s: seq<Byte>, p: nat, police: Police)
    requires p <= |s|
    ensures Decode(s, p, Utf8, police).None? <==> exists q :: CutShort(s, p, q)
    decreases |s| - p
  {
    if p == |s| {
      assert forall q :: !CutShort(s, p, q);
    } else {
      var next := Advance(s, p);
      assert Get8(s, p, police).1 == next;
      if next > |s| {
        assert CutShort(s, p, p);
      } else {
        OverrunExactly(s, next, police);
        forall q
          ensures CutShort(s, p, q) <==> CutShort(s, next, q)
        {
        }
      }
    }
  }

  // ---------- char_ptr and char_at ----------

  datatype Seek = Found(p: nat) | Null | PastBuffer

  /** k characters on from p. The terminating zero counts as a character; behind it there is nothing. */
  function SeekFrom(s: seq<Byte>, p: nat, k: nat): Seek
    decreases k
  {
    if k == 0 then Found(p)
    else if p > |s| then PastBuffer
    else
      var b := At(s, p);
      if b < 0x80 then SeekFrom(s, p + 1, k - 1)
      else if b < 0xC0 then Null
      else if b < 0xE0 && p + 1 < |s| then SeekFrom(s, p + 2, k - 1)
      else if b < 0xF0 && p + 2 <= |s| then SeekFrom(s, p + 3, k - 1)
      else Null
  }

  method CharPtr(s: seq<Byte>, pos: nat) returns (r: Seek)
    ensures r == SeekFrom(s, 0, pos)
  {
    var p := 0;
    for i := 0 to pos
      invariant SeekFrom(s, 0, pos) == SeekFrom(s, p, pos - i)
    {
      if p > |s| {
        return PastBuffer;
      }
      var b := At(s, p);
      if b < 0x80 {
        p := p + 1;
        continue;
      }
      if b < 0xC0 {
        return Null;
      }
      if b < 0xE0 && p + 1 < |s| {
        p := p + 2;
      } else if b < 0xF0 && p + 2 <= |s| {
        p := p + 3;
      } else {
        return Null;
      }
    }
    return Found(p);
  }

  /** One character on: over the bytes it announces, which may end one byte behind the text if they are three. */
  lemma OneCharacterOn(s: seq<Byte>, p: nat)
    requires p < |s|
    ensures SeekFrom(s, p, 1) ==
            var n := Announced(s[p]);
            if n > 0 && (p + n <= |s| || (n == 3 && p + 2 == |s|)) then Found(p + n) else Null
    ensures SeekFrom(s, |s|, 1) == Found(|s| + 1) && SeekFrom(s, |s| + 1, 1) == PastBuffer
  {
  }

  /** The character returned and the length stored; None where the length is left as it was. */
  datatype Answer = Char(c: bv16, len: Option<nat>) | OutOfBounds

  function FromTwo(b0: Byte, b1: Byte): bv16 {
    (((b0 & 0x1F) as bv16) << 6) | ((b1 & 0x3F) as bv16)
  }

  function FromThree(b0: Byte, b1: Byte, b2: Byte): bv16 {
    (((((b0 & 0xF) as bv16) << 6) | ((b1 & 0x3F) as bv16)) << 6) | ((b2 & 0x3F) as bv16)
  }

  function ReadAt(s: seq<Byte>, p: nat): Answer {
    if p > |s| then OutOfBounds
    else
      var b := At(s, p);
      if b < 0x80 then Char(b as bv16, Some(1))
      else if b < 0xC0 then Char(0, Some(0))
      else if b < 0xE0 then Char(FromTwo(b, At(s, p + 1)), Some(2))
      else if b < 0xF0 && p + 2 <= |s| then
        Char(FromThree(b, s[p + 1], At(s, p + 2)), Some(3))
      else Char(0, Some(0))
  }

  lemma FromTwoIs(b0: Byte, b1: Byte)
    ensures FromTwo(b0, b1) as Code == TwoBits(b0, b1)
  {
  }

  lemma FromThreeIs(b0: Byte, b1: Byte, b2: Byte)
    ensures FromThree(b0, b1, b2) as Code == ThreeBits(b0, b1, b2)
  {
  }

  lemma WideSame(b: Byte)
    ensures (b as bv16) as Code == b as Code
  {
  }

  lemma OneRead(s: seq<Byte>, p: nat, police: Police)
    requires p < |s| && s[p] < 0x80
    ensures ReadAt(s, p).Char? && ReadAt(s, p).len == Some(1) && ReadAt(s, p).c as Code == Get8(s, p, police).0
  {
    WideSame(s[p]);
  }

  lemma TwoRead(s: seq<Byte>, p: nat, police: Police)
    requires p < |s| && 0xC0 <= s[p] < 0xE0
    ensures ReadAt(s, p).Char? && ReadAt(s, p).len == Some(2) && ReadAt(s, p).c as Code == Get8(s, p, police).0
  {
    FromTwoIs(s[p], At(s, p + 1));
    hide FromTwo, TwoBits, At;
  }

  lemma ThreeTaken(s: seq<Byte>, p: nat, police: Police)
    requires p + 2 <= |s| && Announced(s[p]) == 3
    ensures ReadAt(s, p) == Char(FromThree(s[p], s[p + 1], At(s, p + 2)), Some(3))
    ensures Get8(s, p, police).0 == ThreeBits(s[p], s[p + 1], At(s, p + 2))
  {
    hide FromThree, ThreeBits, FromTwo, TwoBits;
  }

  lemma ThreeLength(s: seq<Byte>, p: nat, police: Police)
    requires p + 2 <= |s| && Announced(s[p]) == 3
    ensures ReadAt(s, p).Char? && ReadAt(s, p).len == Some(3)
    ensures ReadAt(s, p).c as Code == FromThree(s[p], s[p + 1], At(s, p + 2)) as Code
  {
    hide ReadAt, Get8, FromThree, ThreeBits, At, Announced;
    ThreeTaken(s, p, police);
  }

  lemma ThreeDecoded(s: seq<Byte>, p: nat, police: Police)
    requires p + 2 <= |s| && Announced(s[p]) == 3
    ensures FromThree(s[p], s[p + 1], At(s, p + 2)) as Code == Get8(s, p, police).0
  {
    hide ReadAt, Get8, FromThree, ThreeBits, At, Announced;
    ThreeTaken(s, p, police);
    FromThreeIs(s[p], s[p + 1], At(s, p + 2));
  }

  lemma ThreeRead(s: seq<Byte>, p: nat, police: Police)
    requires p + 2 <= |s| && Announced(s[p]) == 3
    ensures ReadAt(s, p).Char? && ReadAt(s, p).len == Some(3) && ReadAt(s, p).c as Code == Get8(s, p, police).0
  {
    hide ReadAt, Get8, FromThree, ThreeBits, At, Announced;
    ThreeLength(s, p, police);
    ThreeDecoded(s, p, police);
  }

  /** What is read at a position is what the decoder reads there, with as many bytes as are announced. */
  lemma ReadsAsDecoded(s: seq<Byte>, p: nat, police: Police)
    requires p < |s| && Announced(s[p]) > 0 && (Announced(s[p]) == 3 ==> p + 2 <= |s|)
    ensures ReadAt(s, p).Char? && ReadAt(s, p).len == Some(Announced(s[p]))
    ensures ReadAt(s, p).c as Code == Get8(s, p, police).0
  {
    hide ReadAt, Get8;
    if Announced(s[p]) == 1 {
      OneRead(s, p, police);
    } else if Announced(s[p]) == 2 {
      TwoRead(s, p, police);
    } else {
      ThreeRead(s, p, police);
    }
  }

  /** Elsewhere there is nothing: length zero, or one for the terminating zero. */
  lemma NothingRead(s: seq<Byte>, p: nat)
    requires p < |s| ==> Announced(s[p]) == 0 || (Announced(s[p]) == 3 && p + 1 == |s|)
    ensures ReadAt(s, p) ==
            if p > |s| then OutOfBounds else if p == |s| then Char(0, Some(1)) else Char(0, Some(0))
  {
  }

  function CharAt(s: seq<Byte>, pos: nat): Answer {
    match SeekFrom(s, 0, pos)
    case Found(p) => ReadAt(s, p)
    case Null => Char(0, None)
    case PastBuffer => OutOfBounds
  }

  lemma SeekOver(s: seq<Byte>, p: nat, c: Code, k: nat)
    requires Scalar(c) && k > 0
    requires p + |Put8(c)| <= |s| && s[p..p + |Put8(c)|] == Put8(c)
    ensures SeekFrom(s, p, k) == if c < 0x10000 then SeekFrom(s, p + |Put8(c)|, k - 1) else Null
  {
    InPlace(s, p, Put8(c), 0);
    LeadByte(c);
  }

  lemma SeekNowhere(s: seq<Byte>, p: nat)
    ensures SeekFrom(s, p, 0) == Found(p)
  {
  }

  lemma LeadByte(c: Code)
    requires Scalar(c)
    ensures var b := Put8(c)[0];
            if c < 0x80 then b < 0x80
            else if c < 0x800 then 0xC0 <= b < 0xE0
            else if c < 0x10000 then 0xE0 <= b < 0xF0
            else 0xF0 <= b
    ensures Announced(Put8(c)[0]) == if c < 0x10000 then |Put8(c)| else 0
  {
  }

  lemma CarriesCons(form: Form, cs: seq<Code>)
    requires cs != []
    ensures CarriesAll(form, cs) <==> Carries(form, cs[0]) && CarriesAll(form, cs[1..])
  {
    assert forall i | 0 < i < |cs| :: cs[i] == cs[1..][i - 1];
  }

  lemma {:induction false} SeekEncoded(s: seq<Byte>, p: nat, cs: seq<Code>, k: nat)
    requires Scalars(cs) && k <= |cs|
    requires p + |Encode(cs, Utf8)| <= |s| && s[p..p + |Encode(cs, Utf8)|] == Encode(cs, Utf8)
    ensures SeekFrom(s, p, k) == if CarriesAll(Utf8, cs[..k]) then Found(p + |Encode(cs[..k], Utf8)|) else Null
    decreases k
  {
    hide Put8, SeekFrom, Scalar;
    SeekNowhere(s, p);
    if k > 0 {
      var head := Put8(cs[0]);
      Halves(s, p, head, Encode(cs[1..], Utf8));
      SeekOver(s, p, cs[0], k);
      assert cs[..k][1..] == cs[1..][..k - 1];
      assert cs[..k][0] == cs[0];
      if cs[0] < 0x10000 {
        SeekEncoded(s, p + |head|, cs[1..], k - 1);
      }
      CarriesCons(Utf8, cs[..k]);
    }
  }

  lemma BitsShort(c: Code)
    requires c < 0x10000
    ensures 0x80 <= c < 0x800 ==> FromTwo(Low8(0xC0 | (c >> 6)), Low8(0x80 | (c & 0x3F))) == c as bv16
    ensures 0x800 <= c ==>
              FromThree(Low8(0xE0 | (c >> 12)), Low8(0x80 | ((c >> 6) & 0x3F)), Low8(0x80 | (c & 0x3F))) == c as bv16
  {
  }

  lemma ReadTwo(s: seq<Byte>, p: nat, c: Code)
    requires 0x80 <= c < 0x800
    requires p + 1 < |s| && s[p] == Low8(0xC0 | (c >> 6)) && s[p + 1] == Low8(0x80 | (c & 0x3F))
    ensures ReadAt(s, p) == Char(c as bv16, Some(2))
  {
    hide FromTwo, FromThree, Low8, Cont;
    BitsShort(c);
    Bits8Two(c);
  }

  lemma ReadThree(s: seq<Byte>, p: nat, c: Code)
    requires 0x800 <= c < 0x10000
    requires p + 2 < |s| && s[p] == Low8(0xE0 | (c >> 12))
    requires s[p + 1] == Low8(0x80 | ((c >> 6) & 0x3F)) && s[p + 2] == Low8(0x80 | (c & 0x3F))
    ensures ReadAt(s, p) == Char(c as bv16, Some(3))
  {
    hide FromTwo, FromThree, Low8, Cont;
    BitsShort(c);
    Bits8Three(c);
  }

  lemma ReadOther(s: seq<Byte>, p: nat, c: Code)
    requires c < 0x80 || 0x10000 <= c <= 0x10FFFF
    requires p < |s| && s[p] == Put8(c)[0]
    ensures ReadAt(s, p) == if c < 0x80 then Char(c as bv16, Some(1)) else Char(0, Some(0))
  {
    LeadByte(c);
  }

  lemma ReadEncoded(s: seq<Byte>, p: nat, c: Code)
    requires Scalar(c)
    requires p + |Put8(c)| <= |s| && s[p..p + |Put8(c)|] == Put8(c)
    ensures ReadAt(s, p) == if c < 0x10000 then Char(c as bv16, Some(|Put8(c)|)) else Char(0, Some(0))
  {
    hide ReadAt;
    var t := Put8(c);
    InPlace(s, p, t, 0);
    if c < 0x80 || c >= 0x10000 {
      ReadOther(s, p, c);
    } else if c < 0x800 {
      InPlace(s, p, t, 1);
      ReadTwo(s, p, c);
    } else {
      InPlace(s, p, t, 1);
      InPlace(s, p, t, 2);
      ReadThree(s, p, c);
    }
  }

  /** In an encoded text, `char_at` finds the k-th code and its length, as long as no code up to
      it needs four bytes; where one before it does, it answers zero and stores no length. */
  lemma CharAtEncoded(cs: seq<Code>, k: nat)
    requires Scalars(cs) && k < |cs|
    ensures CharAt(Encode(cs, Utf8), k) ==
            if !CarriesAll(Utf8, cs[..k]) then Char(0, None)
            else if cs[k] < 0x10000 then Char(cs[k] as bv16, Some(|Put8(cs[k])|))
            else Char(0, Some(0))
  {
    hide Put8, ReadAt;
    var s := Encode(cs, Utf8);
    assert s[0..|s|] == s;
    SeekEncoded(s, 0, cs, k);
    EncodeFrom(cs, k, Utf8);
    ReadEncoded(s, |Encode(cs[..k], Utf8)|, cs[k]);
  }

  lemma {:induction false} TiledEncoded(s: seq<Byte>, p: nat, cs: seq<Code>)
    requires Scalars(cs)
    requires p + |Encode(cs, Utf8)| == |s| && s[p..] == Encode(cs, Utf8)
    ensures Tiled(s, p) <==> CarriesAll(Utf8, cs)
    decreases |cs|
  {
    hide Put8;
    if cs != [] {
      var head, rest := Put8(cs[0]), Encode(cs[1..], Utf8);
      Halves(s, p, head, rest);
      InPlace(s, p, head, 0);
      LeadByte(cs[0]);
      TiledEncoded(s, p + |head|, cs[1..]);
      CarriesCons(Utf8, cs);
    }
  }

  /** `is_utf8` accepts an encoded text exactly when no code needs four bytes. */
  lemma IsUtf8Encoded(cs: seq<Code>)
    requires Scalars(cs)
    ensures Tiled(Encode(cs, Utf8), 0) <==> CarriesAll(Utf8, cs)
  {
    TiledEncoded(Encode(cs, Utf8), 0, cs);
  }
}
