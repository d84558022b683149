/** The loop of the source that stands for rules N1 and N2, where it keeps to them, and rules I1
    and I2 (sections 3.3.5 and 3.3.6 of UAX #9). */
module BidiNeutral {
  import opened BidiTypes
  import opened BidiRules
  import opened BidiWeak

  // ---------- What the source's loop computes, block by block ----------

  /** The start of the neutrals that reach up to i, whatever their levels. */
  function BlockStart(v: seq<Entity>, i: nat): (s: nat)
    requires i < |v|
    ensures s <= i
    ensures forall k | s <= k < i :: IsNeutral(v[k].kind)
    ensures s > 0 ==> !IsNeutral(v[s - 1].kind)
  {
    if i > 0 && IsNeutral(v[i - 1].kind) then BlockStart(v, i - 1) else i
  }

  function BlockEnd(v: seq<Entity>, i: nat): (e: nat)
    requires i <= |v|
    ensures i <= e <= |v|
    ensures forall k | i <= k < e :: IsNeutral(v[k].kind)
    ensures e < |v| ==> !IsNeutral(v[e].kind)
    decreases |v| - i
  {
    if i < |v| && IsNeutral(v[i].kind) then BlockEnd(v, i + 1) else i
  }

  lemma {:induction false} BlockStartIs(v: seq<Entity>, s: nat, i: nat)
    requires s <= i < |v|
    requires forall k | s <= k < i :: IsNeutral(v[k].kind)
    requires s > 0 ==> !IsNeutral(v[s - 1].kind)
    ensures BlockStart(v, i) == s
  {
    if s < i {
      BlockStartIs(v, s, i - 1);
    }
  }

  lemma {:induction false} BlockEndIs(v: seq<Entity>, i: nat, e: nat)
    requires i <= e <= |v|
    requires forall k | i <= k < e :: IsNeutral(v[k].kind)
    requires e < |v| ==> !IsNeutral(v[e].kind)
    ensures BlockEnd(v, i) == e
    decreases e - i
  {
    if i < e {
      BlockEndIs(v, i + 1, e);
    }
  }

  /** What `_m_eor` returns: the kind of the first later entity of another level, else the
      direction of the first level of the text. */
  function EorFrom(v: seq<Entity>, i: nat, level: nat): Kind
    requires i <= |v| && |v| > 0
    decreases |v| - i
  {
    if i == |v| then Sor(v[0].level)
    else if v[i].level != level then v[i].kind
    else EorFrom(v, i + 1, level)
  }

  function BlockLeft(v: seq<Entity>, s: nat): Kind
    requires s < |v|
  {
    Direction(if RunStart(v, s) then Sor(v[s].level) else v[s - 1].kind)
  }

  function BlockRight(v: seq<Entity>, s: nat, e: nat): Kind
    requires s < e <= |v|
  {
    if e == |v| then Sor(v[0].level)
    else Direction(if v[e].level != v[s].level then EorFrom(v, s, v[s].level) else v[e].kind)
  }

  /** The one kind written over the neutrals s..e. */
  function BlockKind(v: seq<Entity>, s: nat, e: nat): Kind
    requires s < e <= |v|
  {
    if BlockLeft(v, s) == BlockRight(v, s, e) then BlockLeft(v, s) else Sor(v[s].level)
  }

  function NeutralKind(v: seq<Entity>, i: nat): Kind
    requires i < |v|
  {
    if IsNeutral(v[i].kind) then BlockKind(v, BlockStart(v, i), BlockEnd(v, i)) else v[i].kind
  }

  function Neutral(v: seq<Entity>): seq<Entity> {
    seq(|v|, i requires 0 <= i < |v| => v[i].(kind := NeutralKind(v, i)))
  }

  /** Only the entities from i on and the first level matter to eor. */
  lemma {:induction false} EorSame(v: seq<Entity>, w: seq<Entity>, i: nat, level: nat)
    requires |v| == |w| > 0 && i <= |v| && v[0].level == w[0].level
    requires forall k | i <= k < |v| :: v[k] == w[k]
    ensures EorFrom(v, i, level) == EorFrom(w, i, level)
    decreases |v| - i
  {
    if i < |v| {
      EorSame(v, w, i + 1, level);
    }
  }

  // ---------- What the loop writes, from the two ends of a block ----------

  function Opposite(k: Kind): Kind {
    if k == L then R else L
  }

  predicate AllWeaklyResolved(v: seq<Entity>) {
    forall k | 0 <= k < |v| :: IsWeaklyResolved(v[k].kind)
  }

  predicate OneLevelBlock(v: seq<Entity>, s: nat, e: nat)
    requires s < e <= |v|
  {
    forall k | s <= k < e :: v[k].level == v[s].level
  }

  /** The entity behind the block is what the loop looks at: it has the level of the block's first
      neutral, or all of the block has one level. Else the loop finds a neutral inside the block. */
  predicate SeesBehind(v: seq<Entity>, s: nat, e: nat)
    requires s < e < |v|
  {
    v[e].level == v[s].level || OneLevelBlock(v, s, e)
  }

  /** The loop has no letter or number to look at on one side: the level changes before the block, a
      boundary neutral stands beside it, or it looks at a neutral inside. */
  predicate Blind(v: seq<Entity>, s: nat, e: nat)
    requires s < e <= |v|
  {
    RunStart(v, s) || v[s - 1].kind == BN || (e < |v| && (v[e].kind == BN || !SeesBehind(v, s, e)))
  }

  /** A boundary neutral on either side. */
  predicate BetweenBN(v: seq<Entity>, s: nat, e: nat)
    requires s < e <= |v|
  {
    !RunStart(v, s) && v[s - 1].kind == BN && e < |v| && v[e].kind == BN && SeesBehind(v, s, e)
  }

  /** The direction the loop finds behind the block; behind the last one, that of the text's first level. */
  function Behind(v: seq<Entity>, e: nat): Kind
    requires 0 < e <= |v|
  {
    if e == |v| then Sor(v[0].level) else Direction(v[e].kind)
  }

  /** The direction the loop writes when it does not write a boundary neutral. */
  function Written(v: seq<Entity>, s: nat, e: nat): Kind
    requires s < e <= |v|
  {
    if !Blind(v, s, e) && Direction(v[s - 1].kind) == Behind(v, e) then Behind(v, e) else Sor(v[s].level)
  }

  lemma {:induction false} EorIs(v: seq<Entity>, s: nat, c: nat)
    requires s <= c < |v| && v[c].level != v[s].level && forall k | s <= k < c :: v[k].level == v[s].level
    ensures EorFrom(v, s, v[s].level) == v[c].kind
    decreases c - s
  {
    if s + 1 < c {
      EorIs(v, s + 1, c);
    }
  }

  /** In a block of several levels the end of run that the loop looks for is one of its own neutrals. */
  lemma EorInside(v: seq<Entity>, s: nat, e: nat)
    requires s < e <= |v| && !OneLevelBlock(v, s, e) && forall k | s <= k < e :: IsNeutral(v[k].kind)
    ensures IsNeutral(EorFrom(v, s, v[s].level))
  {
    var c := s;
    while v[c].level == v[s].level
      invariant s <= c < e && forall k | s <= k < c :: v[k].level == v[s].level
      decreases e - c
    {
      if c + 1 == e {
        assert OneLevelBlock(v, s, e);
      }
      c := c + 1;
    }
    EorIs(v, s, c);
  }

  lemma BlockRightIs(v: seq<Entity>, s: nat, e: nat)
    requires s < e <= |v| && forall k | s <= k < e :: IsNeutral(v[k].kind)
    ensures if e < |v| && !SeesBehind(v, s, e) then IsNeutral(BlockRight(v, s, e))
            else BlockRight(v, s, e) == Behind(v, e)
  {
    if e < |v| && v[e].level != v[s].level {
      if OneLevelBlock(v, s, e) {
        EorIs(v, s, e);
      } else {
        EorInside(v, s, e);
      }
    }
  }

  lemma BlockKindIs(v: seq<Entity>, s: nat, e: nat)
    requires s < e <= |v| && forall k | s <= k < e :: IsNeutral(v[k].kind)
    requires AllWeaklyResolved(v) && (s > 0 ==> !IsNeutral(v[s - 1].kind)) && (e < |v| ==> !IsNeutral(v[e].kind))
    ensures BlockKind(v, s, e) == if BetweenBN(v, s, e) then BN else Written(v, s, e)
  {
    hide BlockRight;
    BlockRightIs(v, s, e);
    hide SeesBehind;
  }

  // ---------- What the rules find, from the two ends of a group ----------

  /** The first of the neutrals that the rules take together with i: of its level run, next to each
      other but for boundary neutrals. */
  function GroupStart(v: seq<Entity>, i: nat): (a: nat)
    requires i < |v|
    ensures a <= i && v[a].level == v[i].level
    ensures Joined(v, a) ==> !IsNeutral(v[Prev(v, a)].kind)
  {
    if Joined(v, i) && IsNeutral(v[Prev(v, i)].kind) then GroupStart(v, Prev(v, i)) else i
  }

  function GroupEnd(v: seq<Entity>, i: nat): (b: nat)
    requires i < |v|
    ensures i <= b < |v| && v[b].level == v[i].level
    ensures JoinedOn(v, b) ==> !IsNeutral(v[Next(v, b)].kind)
    decreases |v| - i
  {
    if JoinedOn(v, i) && IsNeutral(v[Next(v, i)].kind) then GroupEnd(v, Next(v, i)) else i
  }

  /** What stands at the start of a group: the letter or number before it, or the levels that meet there. */
  function EdgeBefore(v: seq<Entity>, paragraph: nat, a: nat): Kind
    requires a < |v|
  {
    if Joined(v, a) then Direction(v[Prev(v, a)].kind) else SorAt(v, paragraph, a)
  }

  function EdgeAfter(v: seq<Entity>, paragraph: nat, b: nat): Kind
    requires b < |v|
  {
    if JoinedOn(v, b) then Direction(v[Next(v, b)].kind) else EorAt(v, paragraph, b)
  }

  /** Both ends of the group are against the direction of its level. */
  predicate EdgesAgainst(v: seq<Entity>, paragraph: nat, i: nat)
    requires i < |v|
  {
    EdgeBefore(v, paragraph, GroupStart(v, i)) == EdgeAfter(v, paragraph, GroupEnd(v, i)) == Opposite(Sor(v[i].level))
  }

  lemma {:induction false} BeforeIsEdge(v: seq<Entity>, paragraph: nat, i: nat)
    requires i < |v| && AllWeaklyResolved(v)
    ensures DirectionBefore(v, paragraph, i) == EdgeBefore(v, paragraph, GroupStart(v, i))
    ensures DirectionBefore(v, paragraph, i) in {L, R}
  {
    if Joined(v, i) && IsNeutral(v[Prev(v, i)].kind) {
      BeforeIsEdge(v, paragraph, Prev(v, i));
    }
  }

  lemma {:induction false} AfterIsEdge(v: seq<Entity>, paragraph: nat, i: nat)
    requires i < |v| && AllWeaklyResolved(v)
    ensures DirectionAfter(v, paragraph, i) == EdgeAfter(v, paragraph, GroupEnd(v, i))
    ensures DirectionAfter(v, paragraph, i) in {L, R}
    decreases |v| - i
  {
    if JoinedOn(v, i) && IsNeutral(v[Next(v, i)].kind) {
      AfterIsEdge(v, paragraph, Next(v, i));
    }
  }

  lemma N1N2KindIs(v: seq<Entity>, paragraph: nat, i: nat)
    requires i < |v| && IsNeutral(v[i].kind) && AllWeaklyResolved(v)
    ensures N1N2Kind(v, paragraph, i) ==
            if EdgesAgainst(v, paragraph, i) then Opposite(Sor(v[i].level)) else Sor(v[i].level)
  {
    BeforeIsEdge(v, paragraph, i);
    AfterIsEdge(v, paragraph, i);
    hide DirectionBefore, DirectionAfter, EdgeBefore, EdgeAfter, GroupStart, GroupEnd;
  }

  // ---------- Where the loop and the rules part ----------

  /** The rules turn the neutral against its level, and the loop has nothing to look at on one side. */
  predicate Overlooked(v: seq<Entity>, paragraph: nat, s: nat, i: nat, e: nat)
    requires s <= i < e <= |v|
  {
    Blind(v, s, e) && Sor(v[s].level) == Sor(v[i].level) && EdgesAgainst(v, paragraph, i)
  }

  /** The rules leave the neutral the direction of its level, and the loop, with nothing to look at on
      one side, gives it that of another level on which its block starts. */
  predicate Displaced(v: seq<Entity>, paragraph: nat, s: nat, i: nat, e: nat)
    requires s <= i < e <= |v|
  {
    Blind(v, s, e) && Sor(v[s].level) != Sor(v[i].level) && !EdgesAgainst(v, paragraph, i)
  }

  /** Before a block of one level stands its opposite direction, the block ends a level run, and what
      the loop finds behind it is not the direction of the higher of the levels that meet there. */
  predicate EndMisread(v: seq<Entity>, paragraph: nat, s: nat, e: nat)
    requires s < e <= |v|
  {
    && !Blind(v, s, e) && OneLevelBlock(v, s, e)
    && Direction(v[s - 1].kind) != Sor(v[s].level)
    && (e == |v| || v[e].level != v[s].level)
    && Behind(v, e) != Meeting(v[s].level, if e == |v| then paragraph else v[e].level)
  }

  /** In a block of several levels, a neutral that the loop turns against its level and the rules do not. */
  predicate SpanTurned(v: seq<Entity>, paragraph: nat, s: nat, i: nat, e: nat)
    requires s <= i < e <= |v|
  {
    && !Blind(v, s, e) && !OneLevelBlock(v, s, e) && !EdgesAgainst(v, paragraph, i)
    && (if Sor(v[s].level) == Sor(v[i].level) then Direction(v[s - 1].kind) == Behind(v, e) != Sor(v[i].level)
        else Direction(v[s - 1].kind) != Sor(v[i].level) || Behind(v, e) != Sor(v[i].level))
  }

  /** One that the rules turn and the loop does not. */
  predicate SpanKept(v: seq<Entity>, paragraph: nat, s: nat, i: nat, e: nat)
    requires s <= i < e <= |v|
  {
    && !Blind(v, s, e) && !OneLevelBlock(v, s, e) && EdgesAgainst(v, paragraph, i)
    && (if Sor(v[s].level) == Sor(v[i].level)
        then Direction(v[s - 1].kind) == Sor(v[i].level) || Behind(v, e) == Sor(v[i].level)
        else Direction(v[s - 1].kind) == Behind(v, e) == Sor(v[i].level))
  }

  predicate NeutralDeviates(v: seq<Entity>, paragraph: nat, i: nat)
    requires i < |v|
  {
    IsNeutral(v[i].kind)
    && var s, e := BlockStart(v, i), BlockEnd(v, i);
       || BetweenBN(v, s, e)
       || Overlooked(v, paragraph, s, i, e) || Displaced(v, paragraph, s, i, e)
       || EndMisread(v, paragraph, s, e)
       || SpanTurned(v, paragraph, s, i, e) || SpanKept(v, paragraph, s, i, e)
  }

  lemma {:induction false} GroupStartsBlock(v: seq<Entity>, s: nat, i: nat, e: nat)
    requires s <= i < e <= |v| && OneLevelBlock(v, s, e) && forall k | s <= k < e :: IsNeutral(v[k].kind)
    requires s > 0 ==> !IsNeutral(v[s - 1].kind) && v[s - 1].kind != BN
    ensures GroupStart(v, i) == s && Prev(v, s) == s - 1
  {
    if s < i {
      assert Prev(v, i) == i - 1;
      GroupStartsBlock(v, s, i - 1, e);
    }
  }

  lemma {:induction false} GroupEndsBlock(v: seq<Entity>, s: nat, i: nat, e: nat)
    requires s <= i < e <= |v| && OneLevelBlock(v, s, e) && forall k | s <= k < e :: IsNeutral(v[k].kind)
    requires e < |v| ==> !IsNeutral(v[e].kind) && v[e].kind != BN
    ensures GroupEnd(v, i) == e - 1 && Next(v, e - 1) == e
    decreases e - i
  {
    if i + 1 < e {
      assert Next(v, i) == i + 1;
      GroupEndsBlock(v, s, i + 1, e);
    }
  }

  /** The direction that the rules find behind a block of one level. */
  function EndOfBlock(v: seq<Entity>, paragraph: nat, s: nat, e: nat): Kind
    requires s < e <= |v|
  {
    if e == |v| then Meeting(v[s].level, paragraph)
    else if v[e].level != v[s].level then Meeting(v[s].level, v[e].level)
    else Direction(v[e].kind)
  }

  /** The direction that the rules find before a block of one level. */
  function StartOfBlock(v: seq<Entity>, paragraph: nat, s: nat): Kind
    requires s < |v|
  {
    if s == 0 then Meeting(v[s].level, paragraph)
    else if v[s - 1].level != v[s].level then Meeting(v[s].level, v[s - 1].level)
    else Direction(v[s - 1].kind)
  }

  lemma EdgeBeforeBlock(v: seq<Entity>, paragraph: nat, s: nat, i: nat, e: nat)
    requires s <= i < e <= |v| && OneLevelBlock(v, s, e) && forall k | s <= k < e :: IsNeutral(v[k].kind)
    requires s > 0 ==> !IsNeutral(v[s - 1].kind) && v[s - 1].kind != BN
    ensures EdgeBefore(v, paragraph, GroupStart(v, i)) == StartOfBlock(v, paragraph, s)
  {
    GroupStartsBlock(v, s, i, e);
    hide GroupStart, Direction, Sor;
  }

  lemma EdgeAfterBlock(v: seq<Entity>, paragraph: nat, s: nat, i: nat, e: nat)
    requires s <= i < e <= |v| && OneLevelBlock(v, s, e) && forall k | s <= k < e :: IsNeutral(v[k].kind)
    requires e < |v| ==> !IsNeutral(v[e].kind) && v[e].kind != BN
    ensures EdgeAfter(v, paragraph, GroupEnd(v, i)) == EndOfBlock(v, paragraph, s, e)
  {
    GroupEndsBlock(v, s, i, e);
    hide GroupEnd, Direction, Sor;
  }

  /** In a block of one level with no boundary neutral beside it, the ends of every group are those of the block. */
  lemma EdgesOfBlock(v: seq<Entity>, paragraph: nat, s: nat, i: nat, e: nat)
    requires s <= i < e <= |v| && OneLevelBlock(v, s, e) && forall k | s <= k < e :: IsNeutral(v[k].kind)
    requires s > 0 ==> !IsNeutral(v[s - 1].kind) && v[s - 1].kind != BN
    requires e < |v| ==> !IsNeutral(v[e].kind) && v[e].kind != BN
    ensures EdgesAgainst(v, paragraph, i) <==>
            StartOfBlock(v, paragraph, s) == EndOfBlock(v, paragraph, s, e) == Opposite(Sor(v[i].level))
  {
    EdgeBeforeBlock(v, paragraph, s, i, e);
    EdgeAfterBlock(v, paragraph, s, i, e);
    hide EdgeBefore, EdgeAfter, GroupStart, GroupEnd, StartOfBlock, EndOfBlock;
  }

  lemma StrongKinds(v: seq<Entity>, k: nat)
    requires k < |v| && AllWeaklyResolved(v) && !IsNeutral(v[k].kind) && v[k].kind != BN
    ensures Direction(v[k].kind) in {L, R}
  {
  }

  /** A block of one level that the loop is not blind to, by its end. */
  lemma OneLevelWritten(v: seq<Entity>, paragraph: nat, s: nat, i: nat, e: nat)
    requires s <= i < e <= |v| && OneLevelBlock(v, s, e) && forall k | s <= k < e :: IsNeutral(v[k].kind)
    requires AllWeaklyResolved(v) && (s > 0 ==> !IsNeutral(v[s - 1].kind)) && (e < |v| ==> !IsNeutral(v[e].kind))
    requires !Blind(v, s, e)
    ensures (Written(v, s, e) != Sor(v[i].level) <==> EdgesAgainst(v, paragraph, i))
            <==> !EndMisread(v, paragraph, s, e)
  {
    EdgesOfBlock(v, paragraph, s, i, e);
    StrongKinds(v, s - 1);
    if e < |v| {
      StrongKinds(v, e);
    }
    hide EdgesAgainst;
  }

  lemma WrittenStrong(v: seq<Entity>, s: nat, e: nat)
    requires s < e <= |v| && AllWeaklyResolved(v)
    requires (s > 0 ==> !IsNeutral(v[s - 1].kind)) && (e < |v| ==> !IsNeutral(v[e].kind))
    ensures Written(v, s, e) in {L, R}
    ensures !Blind(v, s, e) ==> Direction(v[s - 1].kind) in {L, R} && Behind(v, e) in {L, R}
  {
  }

  /** What the loop writes is against the level of i just when the ends of its group are, shapes apart. */
  lemma WrittenByShapes(v: seq<Entity>, paragraph: nat, s: nat, i: nat, e: nat)
    requires s <= i < e <= |v| && AllWeaklyResolved(v) && forall k | s <= k < e :: IsNeutral(v[k].kind)
    requires (s > 0 ==> !IsNeutral(v[s - 1].kind)) && (e < |v| ==> !IsNeutral(v[e].kind))
    ensures (Written(v, s, e) != Sor(v[i].level) <==> EdgesAgainst(v, paragraph, i)) <==>
              !(|| Overlooked(v, paragraph, s, i, e) || Displaced(v, paragraph, s, i, e)
                || EndMisread(v, paragraph, s, e)
                || SpanTurned(v, paragraph, s, i, e) || SpanKept(v, paragraph, s, i, e))
  {
    WrittenStrong(v, s, e);
    if !Blind(v, s, e) && OneLevelBlock(v, s, e) {
      OneLevelWritten(v, paragraph, s, i, e);
    }
    hide EdgesAgainst, Blind, OneLevelBlock, Behind, Direction;
  }

  /** A neutral, on any levels: the loop agrees with N1 and N2 exactly when it has none of the six shapes. */
  lemma NeutralIsN1N2(v: seq<Entity>, paragraph: nat, i: nat)
    requires i < |v| && IsNeutral(v[i].kind) && AllWeaklyResolved(v)
    ensures NeutralKind(v, i) == N1N2Kind(v, paragraph, i) <==> !NeutralDeviates(v, paragraph, i)
  {
    var s, e := BlockStart(v, i), BlockEnd(v, i);
    BlockKindIs(v, s, e);
    N1N2KindIs(v, paragraph, i);
    WrittenStrong(v, s, e);
    WrittenByShapes(v, paragraph, s, i, e);
    hide BlockKind, N1N2Kind, EdgesAgainst, Written, BetweenBN, Overlooked, Displaced, EndMisread, SpanTurned, SpanKept;
  }

  /** Which of the shapes a block of one level can have when no boundary neutral stands beside it. */
  lemma OneLevelShapes(v: seq<Entity>, paragraph: nat, s: nat, i: nat, e: nat)
    requires s <= i < e <= |v| && OneLevelBlock(v, s, e) && forall k | s <= k < e :: IsNeutral(v[k].kind)
    requires s > 0 ==> v[s - 1].kind != BN
    requires e < |v| ==> v[e].kind != BN
    ensures Blind(v, s, e) <==> RunStart(v, s)
    ensures !BetweenBN(v, s, e) && !SpanTurned(v, paragraph, s, i, e) && !SpanKept(v, paragraph, s, i, e)
    ensures Overlooked(v, paragraph, s, i, e) <==> RunStart(v, s) && EdgesAgainst(v, paragraph, i)
    ensures !Displaced(v, paragraph, s, i, e)
  {
    hide EdgesAgainst, Sor;
    assert v[i].level == v[s].level;
  }

  /** A block of one level with no boundary neutral beside it: the loop agrees exactly unless the
      block starts a level run and both of its ends are against its level, or it ends one behind the
      opposite direction and the loop misreads that end. */
  lemma NeutralOneLevelBlock(v: seq<Entity>, paragraph: nat, i: nat)
    requires i < |v| && IsNeutral(v[i].kind) && AllWeaklyResolved(v)
    requires var s, e := BlockStart(v, i), BlockEnd(v, i);
             && OneLevelBlock(v, s, e) && (s > 0 ==> v[s - 1].kind != BN) && (e < |v| ==> v[e].kind != BN)
    ensures var s, e, against := BlockStart(v, i), BlockEnd(v, i), Opposite(Sor(v[i].level));
            NeutralKind(v, i) == N1N2Kind(v, paragraph, i) <==>
              && !(RunStart(v, s) && Meeting(v[s].level, if s == 0 then paragraph else v[s - 1].level) == against
                   && EndOfBlock(v, paragraph, s, e) == against)
              && !(!RunStart(v, s) && Direction(v[s - 1].kind) == against
                   && (e == |v| || v[e].level != v[s].level) && Behind(v, e) != EndOfBlock(v, paragraph, s, e))
  {
    var s, e := BlockStart(v, i), BlockEnd(v, i);
    assert v[i].level == v[s].level;
    NeutralIsN1N2(v, paragraph, i);
    OneLevelShapes(v, paragraph, s, i, e);
    EdgesOfBlock(v, paragraph, s, i, e);
    if !RunStart(v, s) {
      StrongKinds(v, s - 1);
    }
    hide NeutralKind, N1N2Kind, EdgesAgainst, Blind, BetweenBN, Overlooked, Displaced, SpanTurned, SpanKept;
    hide Meeting, Behind, Direction;
  }

  /** The block lies inside one level run and no boundary neutral touches it; a block at either end
      of the text counts when the paragraph has its level. */
  predicate BlockInRun(v: seq<Entity>, paragraph: nat, s: nat, e: nat)
    requires s < e <= |v|
  {
    && OneLevelBlock(v, s, e)
    && (if s == 0 then v[s].level == paragraph else v[s - 1].level == v[s].level && v[s - 1].kind != BN)
    && (if e == |v| then v[0].level == v[s].level == paragraph else v[e].level == v[s].level && v[e].kind != BN)
  }

  lemma EndsOfRun(v: seq<Entity>, paragraph: nat, s: nat, e: nat)
    requires s < e <= |v| && BlockInRun(v, paragraph, s, e)
    ensures RunStart(v, s) ==> s == 0 && Meeting(v[s].level, paragraph) == Sor(v[s].level)
    ensures e == |v| || v[e].level != v[s].level ==> Behind(v, e) == EndOfBlock(v, paragraph, s, e)
  {
  }

  /** Inside a level run the loop is N1 and N2. */
  lemma NeutralInsideRun(v: seq<Entity>, paragraph: nat, i: nat)
    requires i < |v| && IsNeutral(v[i].kind) && AllWeaklyResolved(v)
    requires BlockInRun(v, paragraph, BlockStart(v, i), BlockEnd(v, i))
    ensures NeutralKind(v, i) == N1N2Kind(v, paragraph, i)
  {
    var s, e := BlockStart(v, i), BlockEnd(v, i);
    assert v[i].level == v[s].level;
    EndsOfRun(v, paragraph, s, e);
    NeutralOneLevelBlock(v, paragraph, i);
    hide NeutralKind, N1N2Kind, Meeting, Behind, EndOfBlock, Direction, BlockStart, BlockEnd, Sor;
  }

  /** On all levels and kinds, the neutral pass equals N1 and N2 exactly when no neutral deviates. */
  lemma NeutralPassIsN1N2(v: seq<Entity>, paragraph: nat)
    requires AllWeaklyResolved(v)
    ensures Neutral(v) == N1N2(v, paragraph) <==> forall i | 0 <= i < |v| :: !NeutralDeviates(v, paragraph, i)
  {
    hide NeutralDeviates;
    SameKinds(v, Neutral(v), N1N2(v, paragraph));
    forall i | 0 <= i < |v|
      ensures Neutral(v)[i].kind == N1N2(v, paragraph)[i].kind <==> !NeutralDeviates(v, paragraph, i)
    {
      if IsNeutral(v[i].kind) {
        NeutralIsN1N2(v, paragraph, i);
      } else {
        OthersKeep(v, paragraph, i);
      }
    }
  }

  lemma OthersKeep(v: seq<Entity>, paragraph: nat, i: nat)
    requires i < |v| && !IsNeutral(v[i].kind)
    ensures NeutralKind(v, i) == N1N2Kind(v, paragraph, i) && !NeutralDeviates(v, paragraph, i)
  {
  }

  // ---------- What stands on either side of a neutral ----------

  /** What two neighbours make of the neutrals between them: numbers count as right-to-left letters. */
  predicate Decides(k: Kind, before: Kind, after: Kind, level: nat) {
    if before in {R, EN, AN} && after in {R, EN, AN} then k == R
    else if before == after == L then k == L
    else k == if level % 2 == 1 then R else L
  }

  /** The rules, by the kinds of the two neighbours that a group of neutrals has in its level run. */
  lemma RulesByNeighbours(v: seq<Entity>, paragraph: nat, i: nat)
    requires i < |v| && IsNeutral(v[i].kind) && AllWeaklyResolved(v)
    requires Joined(v, GroupStart(v, i)) && JoinedOn(v, GroupEnd(v, i))
    ensures Decides(N1N2Kind(v, paragraph, i), v[Prev(v, GroupStart(v, i))].kind, v[Next(v, GroupEnd(v, i))].kind,
                    v[i].level)
  {
    N1N2KindIs(v, paragraph, i);
    hide N1N2Kind, GroupStart, GroupEnd;
  }

  /** The loop, by the kinds of the entities on either side of a block, on any levels. */
  lemma LoopByNeighbours(v: seq<Entity>, i: nat)
    requires i < |v| && IsNeutral(v[i].kind) && AllWeaklyResolved(v)
    requires var s, e := BlockStart(v, i), BlockEnd(v, i); e < |v| && !Blind(v, s, e)
    ensures var s, e := BlockStart(v, i), BlockEnd(v, i);
            Decides(NeutralKind(v, i), v[s - 1].kind, v[e].kind, v[s].level)
  {
    var s, e := BlockStart(v, i), BlockEnd(v, i);
    BlockKindIs(v, s, e);
    hide BlockKind, SeesBehind;
  }

  lemma LoopDecides(v: seq<Entity>, s: nat, i: nat, e: nat)
    requires AllWeaklyResolved(v) && 0 < s <= i < e < |v| && forall k | s <= k < e :: IsNeutral(v[k].kind)
    requires forall k | s - 1 <= k <= e :: v[k].level == v[i].level
    requires v[s - 1].kind in {L, R, EN, AN} && v[e].kind in {L, R, EN, AN}
    ensures Decides(NeutralKind(v, i), v[s - 1].kind, v[e].kind, v[i].level)
  {
    BlockStartIs(v, s, i);
    BlockEndIs(v, i, e);
    hide Decides, NeutralKind, BlockStart, BlockEnd, AllWeaklyResolved;
    LoopByNeighbours(v, i);
  }

  lemma GroupIsBlock(v: seq<Entity>, s: nat, i: nat, e: nat)
    requires 0 < s <= i < e < |v| && forall k | s <= k < e :: IsNeutral(v[k].kind)
    requires forall k | s - 1 <= k <= e :: v[k].level == v[i].level
    requires !IsNeutral(v[s - 1].kind) && v[s - 1].kind != BN && !IsNeutral(v[e].kind) && v[e].kind != BN
    ensures Joined(v, GroupStart(v, i)) && JoinedOn(v, GroupEnd(v, i))
    ensures Prev(v, GroupStart(v, i)) == s - 1 && Next(v, GroupEnd(v, i)) == e
  {
    hide GroupStart, GroupEnd, Prev, Next;
    GroupStartsBlock(v, s, i, e);
    GroupEndsBlock(v, s, i, e);
  }

  lemma RulesDecide(v: seq<Entity>, paragraph: nat, s: nat, i: nat, e: nat)
    requires AllWeaklyResolved(v) && 0 < s <= i < e < |v| && forall k | s <= k < e :: IsNeutral(v[k].kind)
    requires forall k | s - 1 <= k <= e :: v[k].level == v[i].level
    requires v[s - 1].kind in {L, R, EN, AN} && v[e].kind in {L, R, EN, AN}
    ensures Decides(N1N2Kind(v, paragraph, i), v[s - 1].kind, v[e].kind, v[i].level)
  {
    hide Decides, N1N2Kind, GroupStart, GroupEnd, AllWeaklyResolved, Prev, Next, Joined, JoinedOn;
    GroupIsBlock(v, s, i, e);
    RulesByNeighbours(v, paragraph, i);
  }

  /** Neutrals s..e inside a level run: the loop and the rules make of them what their neighbours decide. */
  lemma NeighboursDecide(v: seq<Entity>, paragraph: nat, s: nat, i: nat, e: nat)
    requires AllWeaklyResolved(v) && 0 < s <= i < e < |v| && forall k | s <= k < e :: IsNeutral(v[k].kind)
    requires forall k | s - 1 <= k <= e :: v[k].level == v[i].level
    requires v[s - 1].kind in {L, R, EN, AN} && v[e].kind in {L, R, EN, AN}
    ensures Decides(NeutralKind(v, i), v[s - 1].kind, v[e].kind, v[i].level)
    ensures Decides(N1N2Kind(v, paragraph, i), v[s - 1].kind, v[e].kind, v[i].level)
  {
    hide Decides, NeutralKind, N1N2Kind, AllWeaklyResolved;
    LoopDecides(v, s, i, e);
    RulesDecide(v, paragraph, s, i, e);
  }

  /** A space between a right-to-left letter and a number, on either side, belongs to the letter. */
  lemma NumberAsLetterExample()
    ensures var v := [Entity(0, 1, R, 0), Entity(1, 2, WS, 0), Entity(2, 3, EN, 0)];
            Neutral(v)[1].kind == N1N2(v, 0)[1].kind == R
    ensures var v := [Entity(0, 1, AN, 0), Entity(1, 2, WS, 0), Entity(2, 3, R, 0)];
            Neutral(v)[1].kind == N1N2(v, 0)[1].kind == R
  {
    NeighboursDecide([Entity(0, 1, R, 0), Entity(1, 2, WS, 0), Entity(2, 3, EN, 0)], 0, 1, 1, 2);
    NeighboursDecide([Entity(0, 1, AN, 0), Entity(1, 2, WS, 0), Entity(2, 3, R, 0)], 0, 1, 1, 2);
  }

  /** Between two boundary neutrals the loop writes a boundary neutral. */
  lemma BetweenBNExample()
    ensures var v := [Entity(0, 1, BN, 0), Entity(1, 2, WS, 0), Entity(2, 3, BN, 0)];
            Neutral(v)[1].kind == BN && N1N2(v, 0)[1].kind == L
  {
    var v := [Entity(0, 1, BN, 0), Entity(1, 2, WS, 0), Entity(2, 3, BN, 0)];
    assert BlockStart(v, 1) == 1 && BlockEnd(v, 1) == 2;
    assert Prev(v, 1) == -1 && Next(v, 1) == 3;
  }

  /** A boundary neutral hides the letter before it. */
  lemma HiddenLetterExample()
    ensures var v := [Entity(0, 1, R, 0), Entity(1, 2, BN, 0), Entity(2, 3, WS, 0), Entity(3, 4, R, 0)];
            Neutral(v)[2].kind == L && N1N2(v, 0)[2].kind == R
  {
    var v := [Entity(0, 1, R, 0), Entity(1, 2, BN, 0), Entity(2, 3, WS, 0), Entity(3, 4, R, 0)];
    assert BlockStart(v, 2) == 2 && BlockEnd(v, 2) == 3;
    assert Prev(v, 2) == 0 && Next(v, 2) == 3;
  }

  /** A space between a right-to-left letter and an embedding that starts with a left-to-right one:
      the end-of-run type is R, the loop takes the letter. */
  lemma EndOfRunExample()
    ensures var v := [Entity(0, 1, R, 0), Entity(1, 2, WS, 0), Entity(3, 4, L, 1)];
            Neutral(v)[1].kind == L && N1N2(v, 0)[1].kind == R
  {
    var v := [Entity(0, 1, R, 0), Entity(1, 2, WS, 0), Entity(3, 4, L, 1)];
    assert BlockStart(v, 1) == 1 && BlockEnd(v, 1) == 2;
    assert Prev(v, 1) == 0 && Next(v, 1) == 2;
    EorIs(v, 1, 2);
  }

  /** A space behind an embedding, before a right-to-left letter: the loop overlooks that its run starts with R. */
  lemma StartOverlookedExample()
    ensures var v := [Entity(0, 1, R, 1), Entity(2, 3, WS, 0), Entity(3, 4, R, 0)];
            Neutral(v)[1].kind == L && N1N2(v, 0)[1].kind == R
  {
    var v := [Entity(0, 1, R, 1), Entity(2, 3, WS, 0), Entity(3, 4, R, 0)];
    assert BlockStart(v, 1) == 1 && BlockEnd(v, 1) == 2;
    assert Prev(v, 1) == 0 && Next(v, 1) == 2;
  }

  /** Two spaces, the second in an embedding of its own: the loop gives both the letters' direction. */
  lemma SpanExample()
    ensures var v := [Entity(0, 1, L, 0), Entity(1, 2, WS, 0), Entity(3, 4, WS, 1), Entity(5, 6, L, 0)];
            Neutral(v)[2].kind == L && N1N2(v, 0)[2].kind == R
  {
    var v := [Entity(0, 1, L, 0), Entity(1, 2, WS, 0), Entity(3, 4, WS, 1), Entity(5, 6, L, 0)];
    assert BlockStart(v, 1) == 1 && BlockStart(v, 2) == 1 && BlockEnd(v, 2) == 3;
    assert Prev(v, 2) == 1 && Next(v, 2) == 3;
  }

  // ---------- The level of a neutral, and L1 ----------

  /** The loop turns the neutral at i against the direction of its level. */
  predicate LoopTurns(v: seq<Entity>, i: nat)
    requires i < |v| && IsNeutral(v[i].kind)
  {
    var s, e := BlockStart(v, i), BlockEnd(v, i);
    !BetweenBN(v, s, e) && Written(v, s, e) != Sor(v[i].level)
  }

  /** The level of a neutral after the last pass. */
  lemma NeutralLevel(v: seq<Entity>, i: nat)
    requires i < |v| && IsNeutral(v[i].kind) && AllWeaklyResolved(v)
    ensures Implicit(Neutral(v))[i].level == if LoopTurns(v, i) then v[i].level + 1 else v[i].level
  {
    var s, e := BlockStart(v, i), BlockEnd(v, i);
    BlockKindIs(v, s, e);
    WrittenStrong(v, s, e);
    hide BetweenBN, Written, BlockKind;
    assert Neutral(v)[i].kind == NeutralKind(v, i);
  }

  predicate IsResolved(k: Kind) {
    k.L? || k.R? || k.EN? || k.AN? || k.BN?
  }

  // ---------- I1 and I2 ----------

  function ImplicitLevel(e: Entity): nat {
    match e.kind
    case L => e.level + e.level % 2
    case R => if e.level % 2 == 0 then e.level + 1 else e.level
    case EN => e.level + 2 - e.level % 2
    case AN => e.level + 2 - e.level % 2
    case _ => e.level
  }

  function Implicit(v: seq<Entity>): seq<Entity> {
    seq(|v|, i requires 0 <= i < |v| => v[i].(level := ImplicitLevel(v[i])))
  }

  function Resolve(v: seq<Entity>): seq<Entity> {
    Implicit(Neutral(Weak(v)))
  }

  lemma ImplicitResolves(v: seq<Entity>, i: nat)
    requires i < |v| && IsWeaklyResolved(v[i].kind)
    requires forall k | 0 <= k < |v| :: IsWeaklyResolved(v[k].kind)
    ensures var e := Implicit(Neutral(v))[i];
            && IsResolved(e.kind)
            && (e.kind == R ==> e.level % 2 == 1 && v[i].level <= e.level <= v[i].level + 1)
            && (e.kind == L ==> e.level % 2 == 0 && v[i].level <= e.level <= v[i].level + 1)
            && (e.kind in {EN, AN} ==> e.level % 2 == 0 && v[i].level < e.level <= v[i].level + 2)
            && (e.kind == BN ==> e.level == v[i].level)
            && e.begin == v[i].begin && e.end == v[i].end
  {
    var n := Neutral(v)[i];
    assert IsResolved(n.kind);
    assert Implicit(Neutral(v))[i] == n.(level := ImplicitLevel(n));
  }

  /** What the three passes promise together: only resolved kinds are left; right-to-left text
      moves to the least odd level, left-to-right text to the least even level and numbers to
      the least even level above their own; and every entity keeps its stretch of text. */
  lemma PassesResolve(v: seq<Entity>)
    requires forall k | 0 <= k < |v| :: !IsExplicit(v[k].kind)
    ensures |Resolve(v)| == |v|
    ensures forall i | 0 <= i < |v| ::
              var e := Resolve(v)[i];
              && IsResolved(e.kind)
              && (e.kind == R ==> e.level % 2 == 1 && v[i].level <= e.level <= v[i].level + 1)
              && (e.kind == L ==> e.level % 2 == 0 && v[i].level <= e.level <= v[i].level + 1)
              && (e.kind in {EN, AN} ==> e.level % 2 == 0 && v[i].level < e.level <= v[i].level + 2)
              && (e.kind == BN ==> e.level == v[i].level)
              && e.begin == v[i].begin && e.end == v[i].end
  {
    WeakResolves(v);
    var w := Weak(v);
    forall i | 0 <= i < |w| {
      ImplicitResolves(w, i);
    }
  }
}
