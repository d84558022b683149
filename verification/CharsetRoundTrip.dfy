/** Which texts the transcoders of nana bring back unchanged. */
module CharsetRoundTrip {
  import opened Charset
  import opened Options

  /** A Unicode scalar value (section 2.4 of the Unicode Standard). */
  predicate Scalar(c: Code) {
    c < 0xD800 || 0xE000 <= c <= 0x10FFFF
  }

  predicate Scalars(cs: seq<Code>) {
    forall i | 0 <= i < |cs| :: Scalar(cs[i])
  }

  /** The decoder of this form reads the code back. */
  predicate Carries(form: Form, c: Code) {
    match form
    case Utf8 => c < 0x10000
    case Utf16(le) => le ==> c < 0x10000
    case Utf32(_) => true
  }

  predicate CarriesAll(form: Form, cs: seq<Code>) {
    forall i | 0 <= i < |cs| :: Carries(form, cs[i])
  }

  // ---------- One code, bit by bit ----------

  lemma Bits8Two(c: Code)
    requires 0x80 <= c < 0x800
    ensures var b0, b1 := Low8(0xC0 | (c >> 6)), Low8(0x80 | (c & 0x3F));
            0xC0 <= b0 < 0xE0 && ((((b0 & 0x1F) as Code) << 6) | Cont(b1)) == c
  {
  }

  lemma Bits8Three(c: Code)
    requires 0x800 <= c < 0x10000
    ensures var b0, b1, b2 := Low8(0xE0 | (c >> 12)), Low8(0x80 | ((c >> 6) & 0x3F)), Low8(0x80 | (c & 0x3F));
            0xE0 <= b0 < 0xF0 && ((((((b0 & 0xF) as Code) << 6) | Cont(b1)) << 6) | Cont(b2)) == c
  {
  }

  lemma Bits16(u: Code)
    requires u <= 0xFFFF
    ensures Pair(Low8((u & 0xFF00) >> 8), Low8(u)) == u
    ensures (Low8((u & 0xFF00) >> 8) & 0xFC) == 0xD8 <==> 0xD800 <= u < 0xDC00
  {
  }

  lemma BitsOffset(offset: Code)
    requires offset < 0x100000
    ensures 0xD800 <= HighUnit(offset) < 0xDC00 <= LowUnit(offset) < 0xE000
    ensures PairBits(HighUnit(offset), LowUnit(offset)) == offset
  {
  }

  lemma OffsetBound(c: Code)
    requires 0x10000 <= c <= 0x10FFFF
    ensures c - 0x10000 < 0x100000
  {
  }

  lemma Surrogates(c: Code, le: bool) returns (high: Code, low: Code)
    requires 0x10000 <= c <= 0x10FFFF
    ensures 0xD800 <= high < 0xDC00 <= low < 0xE000
    ensures PairBits(high, low) == c - 0x10000
    ensures Put16(c, le) == Unit16(high, le) + Unit16(low, le)
  {
    hide HighUnit, LowUnit, PairBits, Unit16;
    high, low := HighUnit(c - 0x10000), LowUnit(c - 0x10000);
    OffsetBound(c);
    BitsOffset(c - 0x10000);
  }

  lemma Bits32(c: Code)
    ensures (Pair(Low8((c & 0xFF000000) >> 24), Low8((c & 0xFF0000) >> 16)) << 16)
            | Pair(Low8((c & 0xFF00) >> 8), Low8(c)) == c
  {
  }

  // ---------- One code, in its place ----------

  lemma InPlace(s: seq<Byte>, p: nat, t: seq<Byte>, i: nat)
    requires i < |t| && p + |t| <= |s| && s[p..p + |t|] == t
    ensures s[p + i] == t[i]
  {
    assert s[p + i] == s[p..p + |t|][i];
  }

  lemma Get8Put8One(s: seq<Byte>, p: nat, c: Code, police: Police)
    requires c < 0x80
    requires p < |s| && s[p] == Low8(c)
    ensures Get8(s, p, police) == (c, p + 1)
  {
  }

  lemma Get8Put8Two(s: seq<Byte>, p: nat, c: Code, police: Police)
    requires 0x80 <= c < 0x800
    requires p + 1 < |s| && s[p] == Low8(0xC0 | (c >> 6)) && s[p + 1] == Low8(0x80 | (c & 0x3F))
    ensures Get8(s, p, police) == (c, p + 2)
  {
    Bits8Two(c);
  }

  lemma Get8Put8Three(s: seq<Byte>, p: nat, c: Code, police: Police)
    requires 0x800 <= c < 0x10000
    requires p + 2 < |s| && s[p] == Low8(0xE0 | (c >> 12))
    requires s[p + 1] == Low8(0x80 | ((c >> 6) & 0x3F)) && s[p + 2] == Low8(0x80 | (c & 0x3F))
    ensures Get8(s, p, police) == (c, p + 3)
  {
    Bits8Three(c);
  }

  lemma Get8Put8(s: seq<Byte>, p: nat, c: Code, police: Police)
    requires c < 0x10000
    requires p + |Put8(c)| <= |s| && s[p..p + |Put8(c)|] == Put8(c)
    ensures Get8(s, p, police) == (c, p + |Put8(c)|)
  {
    var t := Put8(c);
    InPlace(s, p, t, 0);
    if c < 0x80 {
      Get8Put8One(s, p, c, police);
    } else if c < 0x800 {
      InPlace(s, p, t, 1);
      Get8Put8Two(s, p, c, police);
    } else {
      InPlace(s, p, t, 1);
      InPlace(s, p, t, 2);
      Get8Put8Three(s, p, c, police);
    }
  }

  lemma Get16Put16One(s: seq<Byte>, p: nat, u: Code, le: bool)
    requires u < 0xD800 || 0xE000 <= u <= 0xFFFF
    requires p + 1 < |s| && s[p] == Unit16(u, le)[0] && s[p + 1] == Unit16(u, le)[1]
    ensures Get16(s, p, le) == (u, p + 2)
  {
    Bits16(u);
  }

  /** A unit read back from its two bytes, and whether it looks like the first of a pair. */
  lemma UnitBack(u: Code, le: bool)
    requires u <= 0xFFFF
    ensures var t := Unit16(u, le);
            var high, low := if le then t[1] else t[0], if le then t[0] else t[1];
            Pair(high, low) == u && ((high & 0xFC) == 0xD8 <==> 0xD800 <= u < 0xDC00)
  {
    Bits16(u);
  }

  lemma Get16Pair(s: seq<Byte>, p: nat, high: Code, low: Code, le: bool)
    requires 0xD800 <= high < 0xDC00 && low <= 0xFFFF
    requires p + 3 < |s| && s[p] == Unit16(high, le)[0] && s[p + 1] == Unit16(high, le)[1]
    requires s[p + 2] == Unit16(low, le)[0] && s[p + 3] == Unit16(low, le)[1]
    ensures var c := PairBits(high, low);
            Get16(s, p, le) == (if le then c else c + 0x10000, p + 4)
  {
    hide PairBits, Pair, Low8;
    UnitBack(high, le);
    UnitBack(low, le);
  }

  lemma PairInPlace(s: seq<Byte>, p: nat, u: seq<Byte>, v: seq<Byte>)
    requires |u| == |v| == 2 && p + 4 <= |s| && s[p..p + 4] == u + v
    ensures s[p] == u[0] && s[p + 1] == u[1] && s[p + 2] == v[0] && s[p + 3] == v[1]
  {
    InPlace(s, p, u + v, 0);
    InPlace(s, p, u + v, 1);
    InPlace(s, p, u + v, 2);
    InPlace(s, p, u + v, 3);
  }

  /** A surrogate pair: the little-endian decoder returns it without the offset 0x10000. */
  lemma Get16Put16Two(s: seq<Byte>, p: nat, c: Code, le: bool)
    requires 0x10000 <= c <= 0x10FFFF
    requires p + 4 <= |s| && s[p..p + 4] == Put16(c, le)
    ensures Get16(s, p, le) == (if le then c - 0x10000 else c, p + 4)
  {
    var high, low := Surrogates(c, le);
    PairInPlace(s, p, Unit16(high, le), Unit16(low, le));
    Get16Pair(s, p, high, low, le);
  }

  lemma Get16Put16(s: seq<Byte>, p: nat, c: Code, le: bool)
    requires Scalar(c) && c <= 0xFFFF
    requires p + 2 <= |s| && s[p..p + 2] == Put16(c, le)
    ensures Get16(s, p, le) == (c, p + 2)
  {
    InPlace(s, p, Unit16(c, le), 0);
    InPlace(s, p, Unit16(c, le), 1);
    Get16Put16One(s, p, c, le);
  }

  lemma Get32Put32(s: seq<Byte>, p: nat, c: Code, le: bool)
    requires p + 4 <= |s| && s[p..p + 4] == Put32(c, le)
    ensures Get32(s, p, le) == (c, p + 4)
  {
    var t := Put32(c, le);
    InPlace(s, p, t, 0);
    InPlace(s, p, t, 1);
    InPlace(s, p, t, 2);
    InPlace(s, p, t, 3);
    Bits32(c);
  }

  lemma GetPut(s: seq<Byte>, p: nat, c: Code, form: Form, police: Police)
    requires Scalar(c) && Carries(form, c)
    requires p + |Put(c, form)| <= |s| && s[p..p + |Put(c, form)|] == Put(c, form)
    ensures Get(s, p, form, police) == (c, p + |Put(c, form)|)
  {
    match form {
      case Utf8 => Get8Put8(s, p, c, police);
      case Utf16(le) =>
        if c <= 0xFFFF {
          Get16Put16(s, p, c, le);
        } else {
          Get16Put16Two(s, p, c, le);
        }
      case Utf32(le) => Get32Put32(s, p, c, le);
    }
  }

  // ---------- Whole texts ----------

  function Prepend(cs: seq<Code>, r: Option<seq<Code>>): Option<seq<Code>> {
    match r
    case None => None
    case Some(rest) => Some(cs + rest)
  }

  lemma Halves(s: seq<Byte>, p: nat, a: seq<Byte>, b: seq<Byte>)
    requires p + |a| + |b| <= |s| && s[p..p + |a| + |b|] == a + b
    ensures s[p..p + |a|] == a && s[p + |a|..p + |a| + |b|] == b
  {
    forall i | 0 <= i < |a|
      ensures s[p + i] == a[i]
    {
      InPlace(s, p, a + b, i);
    }
    forall i | 0 <= i < |b|
      ensures s[p + |a| + i] == b[i]
    {
      InPlace(s, p, a + b, |a| + i);
    }
  }

  lemma DecodeOne(s: seq<Byte>, p: nat, c: Code, form: Form, police: Police)
    requires Scalar(c) && Carries(form, c)
    requires p + |Put(c, form)| <= |s| && s[p..p + |Put(c, form)|] == Put(c, form)
    ensures Decode(s, p, form, police) == Prepend([c], Decode(s, p + |Put(c, form)|, form, police))
  {
    GetPut(s, p, c, form, police);
  }

  lemma PrependTwice(a: seq<Code>, b: seq<Code>, r: Option<seq<Code>>)
    ensures Prepend(a, Prepend(b, r)) == Prepend(a + b, r)
    ensures Prepend([], r) == r
  {
    if r.Some? {
      assert a + (b + r.value) == a + b + r.value;
      assert [] + r.value == r.value;
    }
  }

  lemma DecodeOneMore(s: seq<Byte>, p: nat, c: Code, cs: seq<Code>, e: nat, form: Form, police: Police)
    requires Scalar(c) && Carries(form, c)
    requires p + |Put(c, form)| <= e <= |s| && s[p..p + |Put(c, form)|] == Put(c, form)
    requires Decode(s, p + |Put(c, form)|, form, police) == Prepend(cs, Decode(s, e, form, police))
    ensures Decode(s, p, form, police) == Prepend([c] + cs, Decode(s, e, form, police))
  {
    DecodeOne(s, p, c, form, police);
    PrependTwice([c], cs, Decode(s, e, form, police));
  }

  /** Decoding reads an encoded stretch back, and goes on behind it. */
  lemma {:induction false} DecodeStretch(s: seq<Byte>, p: nat, cs: seq<Code>, form: Form, police: Police)
    requires Scalars(cs) && CarriesAll(form, cs)
    requires p + |Encode(cs, form)| <= |s| && s[p..p + |Encode(cs, form)|] == Encode(cs, form)
    ensures Decode(s, p, form, police) == Prepend(cs, Decode(s, p + |Encode(cs, form)|, form, police))
    decreases |cs|
  {
    hide Put, Get;
    if cs == [] {
      PrependTwice([], [], Decode(s, p, form, police));
    } else {
      Halves(s, p, Put(cs[0], form), Encode(cs[1..], form));
      DecodeStretch(s, p + |Put(cs[0], form)|, cs[1..], form, police);
      DecodeOneMore(s, p, cs[0], cs[1..], p + |Encode(cs, form)|, form, police);
      assert [cs[0]] + cs[1..] == cs;
    }
  }

  /** Whatever form carries its codes, a text is converted code by code. */
  lemma ConvertCarried(cs: seq<Code>, from: Form, to: Form, police: Police)
    requires Scalars(cs) && CarriesAll(from, cs)
    ensures Decode(Encode(cs, from), 0, from, police) == Some(cs)
    ensures Convert(Encode(cs, from), from, to, police) == Some(Encode(cs, to))
  {
    var s := Encode(cs, from);
    assert s[0..|s|] == s;
    DecodeStretch(s, 0, cs, from, police);
    assert cs + [] == cs;
    assert [] + Encode(cs, to) == Encode(cs, to);
  }

  lemma EncodeStep(cs: seq<Code>, form: Form)
    requires cs != []
    ensures Encode(cs, form) == Put(cs[0], form) + Encode(cs[1..], form)
  {
    hide Put;
  }

  lemma Regrouped(a: seq<Byte>, b: seq<Byte>, c: seq<Byte>)
    ensures a + (b + c) == (a + b) + c
  {
  }

  lemma {:induction false} EncodeConcat(a: seq<Code>, b: seq<Code>, form: Form)
    ensures Encode(a + b, form) == Encode(a, form) + Encode(b, form)
  {
    hide Put;
    if a == [] {
      assert a + b == b;
    } else {
      hide Encode;
      EncodeConcat(a[1..], b, form);
      assert (a + b)[1..] == a[1..] + b && (a + b)[0] == a[0];
      EncodeStep(a, form);
      EncodeStep(a + b, form);
      Regrouped(Put(a[0], form), Encode(a[1..], form), Encode(b, form));
    }
  }

  /** The first code that the form does not carry back. */
  lemma {:induction false} FirstLost(cs: seq<Code>, form: Form) returns (k: nat)
    requires !CarriesAll(form, cs)
    ensures k < |cs| && !Carries(form, cs[k]) && CarriesAll(form, cs[..k])
  {
    if !Carries(form, cs[0]) {
      k := 0;
    } else {
      k := FirstLost(cs[1..], form);
      k := k + 1;
      assert forall i | 0 < i < k :: cs[..k][i] == cs[1..][..k - 1][i - 1];
    }
  }

  /** A four-byte lead: the UTF-8 decoder answers zero and leaves the rest of the text. */
  lemma FourBytesLost(s: seq<Byte>, q: nat, c: Code, police: Police)
    requires 0x10000 <= c <= 0x10FFFF
    requires q + 4 <= |s| && s[q..q + 4] == Put8(c)
    ensures Decode(s, q, Utf8, police) == Some([0])
  {
    InPlace(s, q, Put8(c), 0);
    assert s[q] >= 0xF0;
    assert Get8(s, q, police) == (0, |s|);
    assert [0 as Code] + [] == [0 as Code];
    assert Decode(s, |s|, Utf8, police) == Some([]);
  }

  lemma EncodeFrom(cs: seq<Code>, k: nat, form: Form)
    requires k < |cs|
    ensures var s, q := Encode(cs, form), |Encode(cs[..k], form)|;
            && q + |Put(cs[k], form)| <= |s|
            && s[0..q] == Encode(cs[..k], form) && s[q..q + |Put(cs[k], form)|] == Put(cs[k], form)
  {
    hide Put;
    assert cs == cs[..k] + cs[k..];
    EncodeConcat(cs[..k], cs[k..], form);
    assert Encode(cs[k..], form) == Put(cs[k], form) + Encode(cs[k..][1..], form);
  }

  lemma DecodeUpTo(cs: seq<Code>, k: nat, form: Form, police: Police)
    requires Scalars(cs) && k < |cs| && CarriesAll(form, cs[..k])
    ensures var s, q := Encode(cs, form), |Encode(cs[..k], form)|;
            q <= |s| && Decode(s, 0, form, police) == Prepend(cs[..k], Decode(s, q, form, police))
  {
    hide Put, Get;
    EncodeFrom(cs, k, form);
    DecodeStretch(Encode(cs, form), 0, cs[..k], form, police);
  }

  lemma DecodeLost8(cs: seq<Code>, k: nat, police: Police)
    requires Scalars(cs) && k < |cs| && CarriesAll(Utf8, cs[..k]) && cs[k] >= 0x10000
    ensures Decode(Encode(cs, Utf8), 0, Utf8, police) == Some(cs[..k] + [0])
  {
    hide Decode;
    DecodeUpTo(cs, k, Utf8, police);
    EncodeFrom(cs, k, Utf8);
    FourBytesLost(Encode(cs, Utf8), |Encode(cs[..k], Utf8)|, cs[k], police);
  }

  lemma PairLost(s: seq<Byte>, q: nat, c: Code, police: Police)
    requires 0x10000 <= c <= 0x10FFFF
    requires q + 4 <= |s| && s[q..q + 4] == Put16(c, true)
    ensures var r := Decode(s, q, Utf16(true), police);
            r.Some? && |r.value| > 0 && r.value[0] != c
  {
    Get16Put16Two(s, q, c, true);
  }

  /** A surrogate pair comes back from the little-endian decoder as another code. */
  lemma DecodeLost16(cs: seq<Code>, k: nat, police: Police)
    requires Scalars(cs) && k < |cs| && CarriesAll(Utf16(true), cs[..k]) && cs[k] >= 0x10000
    ensures var r := Decode(Encode(cs, Utf16(true)), 0, Utf16(true), police);
            r.Some? && k < |r.value| && r.value[k] != cs[k]
  {
    hide Decode;
    DecodeUpTo(cs, k, Utf16(true), police);
    EncodeFrom(cs, k, Utf16(true));
    PairLost(Encode(cs, Utf16(true)), |Encode(cs[..k], Utf16(true))|, cs[k], police);
  }

  // ---------- The round trips ----------

  lemma UnitMark(u: Code, le: bool)
    requires u <= 0xFFFF
    ensures Unit16(u, le)[0] == 0xFE && Unit16(u, le)[1] == 0xFF <==> u == if le then 0xFFFE else 0xFEFF
  {
    Bits16(u);
  }

  /** The unit that a code starts with. */
  lemma FirstUnit(c: Code, le: bool) returns (u: Code)
    requires Scalar(c)
    ensures u <= 0xFFFF && Put16(c, le)[..2] == Unit16(u, le)
    ensures u == c || 0xD800 <= u < 0xDC00 < c
  {
    u := c;
    if c > 0xFFFF {
      var low;
      u, low := Surrogates(c, le);
    }
  }

  lemma FirstBytes(cs: seq<Code>, le: bool)
    requires cs != []
    ensures var s, t := Encode(cs, Utf16(le)), Put16(cs[0], le)[..2];
            |s| >= 2 && s[0] == t[0] && s[1] == t[1]
  {
    hide Put16;
  }

  /** The first two bytes of UTF-16 are a big-endian mark just when its first unit is U+FEFF
      written big-endian or U+FFFE written little-endian. */
  lemma Mark16(cs: seq<Code>, le: bool)
    requires Scalars(cs)
    ensures BigEndian16(Encode(cs, Utf16(le))) <==> cs != [] && cs[0] == if le then 0xFFFE else 0xFEFF
  {
    if cs != [] {
      hide Put16, Unit16, Encode;
      var u := FirstUnit(cs[0], le);
      FirstBytes(cs, le);
      UnitMark(u, le);
    }
  }

  /** Two texts with the same codes in front are the same only if they go on the same. */
  lemma EncodingsDiffer(a: seq<Code>, b: seq<Code>, form: Form, k: nat)
    requires k < |a| && k < |b| && a[..k] == b[..k]
    requires Put(a[k], form)[0] != Put(b[k], form)[0]
    ensures Encode(a, form) != Encode(b, form)
  {
    hide Put;
    EncodeFrom(a, k, form);
    EncodeFrom(b, k, form);
    var q := |Encode(a[..k], form)|;
    InPlace(Encode(a, form), q, Put(a[k], form), 0);
    InPlace(Encode(b, form), q, Put(b[k], form), 0);
  }

  /** Little-endian text that starts with U+FFFE is taken for big-endian text with a mark. */
  lemma SwappedTo8(u: seq<Byte>, cs: seq<Code>, police: Police)
    requires BigEndian16(u) && cs != [] && cs[0] == 0xFFFE
    ensures Convert16To8(u, police) != Some(Encode(cs, Utf8))
  {
    MarkIsCode(u, Utf16(false), Utf8, police);
    EncodeFrom(cs, 0, Utf8);
    InPlace(Encode(cs, Utf8), 0, Put8(0xFFFE), 1);
  }

  lemma SwappedTo32(u: seq<Byte>, cs: seq<Code>, police: Police)
    requires BigEndian16(u) && cs != [] && cs[0] == 0xFFFE
    ensures Convert16To32(u, police) != Some(Encode(cs, Utf32(true)))
  {
    MarkIsCode(u, Utf16(false), Utf32(false), police);
    EncodeFrom(cs, 0, Utf32(true));
    InPlace(Encode(cs, Utf32(true)), 0, Put32(0xFFFE, true), 0);
  }

  /** UTF-8 to little-endian UTF-16 and back gives the same text exactly when every code has at
      most sixteen bits and the first is not the swapped mark U+FFFE. */
  lemma Utf8ThroughUtf16(cs: seq<Code>, police: Police)
    requires Scalars(cs)
    ensures var s := Encode(cs, Utf8);
            var u := Convert(s, Utf8, Utf16(true), police);
            u.Some? && (Convert16To8(u.value, police) == Some(s)
                        <==> CarriesAll(Utf8, cs) && (cs == [] || cs[0] != 0xFFFE))
  {
    hide Put, Get, Encode, Decode;
    if CarriesAll(Utf8, cs) {
      ConvertCarried(cs, Utf8, Utf16(true), police);
      Mark16(cs, true);
      var u := Encode(cs, Utf16(true));
      if cs != [] && cs[0] == 0xFFFE {
        SwappedTo8(u, cs, police);
      } else {
        ConvertCarried(cs, Utf16(true), Utf8, police);
      }
    } else {
      var k := FirstLost(cs, Utf8);
      DecodeLost8(cs, k, police);
      var ds := cs[..k] + [0];
      assert [] + Encode(ds, Utf16(true)) == Encode(ds, Utf16(true));
      Mark16(ds, true);
      if ds[0] == 0xFFFE {
        SwappedTo8(Encode(ds, Utf16(true)), cs, police);
      } else {
        ConvertCarried(ds, Utf16(true), Utf8, police);
        FirstByteDiffers(cs[k]);
        assert ds[..k] == cs[..k];
        EncodingsDiffer(ds, cs, Utf8, k);
      }
    }
  }

  lemma FirstByteDiffers(c: Code)
    requires 0x10000 <= c <= 0x10FFFF
    ensures Put(0, Utf8)[0] != Put(c, Utf8)[0]
  {
  }

  lemma {:induction false} Length32(cs: seq<Code>, le: bool)
    ensures |Encode(cs, Utf32(le))| == 4 * |cs|
  {
    if cs != [] {
      Length32(cs[1..], le);
    }
  }

  lemma At32(cs: seq<Code>, k: nat, le: bool)
    requires k < |cs|
    ensures 4 * k + 4 <= |Encode(cs, Utf32(le))|
    ensures Get32(Encode(cs, Utf32(le)), 4 * k, le) == (cs[k], 4 * k + 4)
  {
    Length32(cs[..k], le);
    EncodeFrom(cs, k, Utf32(le));
    Get32Put32(Encode(cs, Utf32(le)), 4 * k, cs[k], le);
  }

  /** Four-byte text has a big-endian mark just when it is big-endian and starts with U+FEFF. */
  lemma Mark32(cs: seq<Code>, le: bool)
    requires Scalars(cs)
    ensures BigEndian32(Encode(cs, Utf32(le))) <==> cs != [] && !le && cs[0] == 0xFEFF
    ensures Whole32(Encode(cs, Utf32(le))) == Encode(cs, Utf32(le))
  {
    Length32(cs, le);
    if cs != [] {
      var s, t := Encode(cs, Utf32(le)), Put32(cs[0], le);
      EncodeFrom(cs, 0, Utf32(le));
      hide Put32, Encode, Scalar;
      InPlace(s, 0, t, 0);
      InPlace(s, 0, t, 1);
      InPlace(s, 0, t, 2);
      InPlace(s, 0, t, 3);
      MarkBytes32(cs[0], le);
    }
  }

  lemma MarkBytes32(c: Code, le: bool)
    requires Scalar(c)
    ensures var t := Put32(c, le);
            (t[0] == 0 && t[1] == 0 && t[2] == 0xFE && t[3] == 0xFF) <==> !le && c == 0xFEFF
  {
  }

  /** Big-endian UTF-32 that starts with a mark comes back from UTF-16 unchanged, whatever its
      codes: surrogate pairs included. */
  lemma Utf32ThroughUtf16Marked(cs: seq<Code>, police: Police)
    requires Scalars(cs) && cs != [] && cs[0] == 0xFEFF
    ensures var s := Encode(cs, Utf32(false));
            var u := Convert32To16(s, police);
            u.Some? && Convert16To32(u.value, police) == Some(s)
  {
    Mark32(cs, false);
    ConvertCarried(cs, Utf32(false), Utf16(false), police);
    Mark16(cs, false);
    ConvertCarried(cs, Utf16(false), Utf32(false), police);
  }

  /** Little-endian UTF-32 comes back exactly when no code needs a surrogate pair and the first
      is not the swapped mark U+FFFE. */
  lemma Utf32ThroughUtf16(cs: seq<Code>, police: Police)
    requires Scalars(cs)
    ensures var s := Encode(cs, Utf32(true));
            var u := Convert32To16(s, police);
            u.Some? && (Convert16To32(u.value, police) == Some(s)
                        <==> CarriesAll(Utf16(true), cs) && (cs == [] || cs[0] != 0xFFFE))
  {
    hide Put, Get, Encode;
    Mark32(cs, true);
    ConvertCarried(cs, Utf32(true), Utf16(true), police);
    Mark16(cs, true);
    var u := Encode(cs, Utf16(true));
    if cs != [] && cs[0] == 0xFFFE {
      SwappedTo32(u, cs, police);
    } else if CarriesAll(Utf16(true), cs) {
      ConvertCarried(cs, Utf16(true), Utf32(true), police);
    } else {
      var k := FirstLost(cs, Utf16(true));
      DecodeLost16(cs, k, police);
      var ds := Decode(u, 0, Utf16(true), police).value;
      assert [] + Encode(ds, Utf32(true)) == Encode(ds, Utf32(true));
      At32(cs, k, true);
      At32(ds, k, true);
    }
  }
}
