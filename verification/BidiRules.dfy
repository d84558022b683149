/** Rules W1 to W7, N1, N2 and L1 (sections 3.3.4, 3.3.5 and 3.4 of UAX #9), one pass each. Rule X9 removes
    the boundary neutrals (BN), so every rule looks past them; rule X10 gives the direction of
    either end of a level run by the higher of the two levels that meet there. */
module BidiRules {
  import opened BidiTypes
  import BidiScan

  // ---------- Neighbours and run ends ----------

  /** The last entity before i that X9 leaves, or -1. */
  function Prev(v: seq<Entity>, i: nat): (k: int)
    requires i <= |v|
    ensures -1 <= k < i
    ensures k >= 0 ==> v[k].kind != BN
    ensures forall j | k < j < i :: v[j].kind == BN
  {
    if i == 0 then -1 else if v[i - 1].kind != BN then i - 1 else Prev(v, i - 1)
  }

  /** The first entity behind i that X9 leaves, or |v|. */
  function Next(v: seq<Entity>, i: nat): (k: nat)
    requires i < |v|
    ensures i < k <= |v|
    ensures k < |v| ==> v[k].kind != BN
    ensures forall j | i < j < k :: v[j].kind == BN
    decreases |v| - i
  {
    if i + 1 == |v| || v[i + 1].kind != BN then i + 1 else Next(v, i + 1)
  }

  /** Entity i continues the level run of the entity before it. */
  predicate Joined(v: seq<Entity>, i: nat)
    requires i < |v|
  {
    Prev(v, i) >= 0 && v[Prev(v, i)].level == v[i].level
  }

  predicate JoinedOn(v: seq<Entity>, i: nat)
    requires i < |v|
  {
    Next(v, i) < |v| && v[Next(v, i)].level == v[i].level
  }

  /** The direction where two levels meet. */
  function Meeting(a: nat, b: nat): (k: Kind)
    ensures k == L || k == R
  {
    Sor(if a > b then a else b)
  }

  /** The start-of-run type of the run that starts at i. */
  function SorAt(v: seq<Entity>, paragraph: nat, i: nat): (k: Kind)
    requires i < |v|
    ensures k == L || k == R
  {
    Meeting(v[i].level, if Prev(v, i) < 0 then paragraph else v[Prev(v, i)].level)
  }

  /** The end-of-run type of the run that ends at i. */
  function EorAt(v: seq<Entity>, paragraph: nat, i: nat): (k: Kind)
    requires i < |v|
    ensures k == L || k == R
  {
    Meeting(v[i].level, if Next(v, i) == |v| then paragraph else v[Next(v, i)].level)
  }

  /** The first strong kind before i in its run, or the run's start-of-run type. */
  function StrongBefore(v: seq<Entity>, paragraph: nat, i: nat, strong: set<Kind>): Kind
    requires i < |v|
  {
    if !Joined(v, i) then SorAt(v, paragraph, i)
    else if v[Prev(v, i)].kind in strong then v[Prev(v, i)].kind
    else StrongBefore(v, paragraph, Prev(v, i), strong)
  }

  // ---------- W1 to W3 ----------

  function W1Kind(v: seq<Entity>, paragraph: nat, i: nat): (k: Kind)
    requires i < |v|
    ensures k == BN <==> v[i].kind == BN
    ensures k != NSM
  {
    if v[i].kind != NSM then v[i].kind
    else if Joined(v, i) then W1Kind(v, paragraph, Prev(v, i))
    else SorAt(v, paragraph, i)
  }

  function W1(v: seq<Entity>, paragraph: nat): seq<Entity> {
    seq(|v|, i requires 0 <= i < |v| => v[i].(kind := W1Kind(v, paragraph, i)))
  }

  function W2(v: seq<Entity>, paragraph: nat): seq<Entity> {
    seq(|v|, i requires 0 <= i < |v| =>
      if v[i].kind == EN && StrongBefore(v, paragraph, i, {L, R, AL}) == AL then v[i].(kind := AN) else v[i])
  }

  function W3(v: seq<Entity>): seq<Entity> {
    seq(|v|, i requires 0 <= i < |v| => if v[i].kind == AL then v[i].(kind := R) else v[i])
  }

  function W1ToW3(v: seq<Entity>, paragraph: nat): (w: seq<Entity>)
    ensures |w| == |v|
  {
    W3(W2(W1(v, paragraph), paragraph))
  }

  // ---------- W4 to W6 ----------

  /** The entity is one character long; a PDF that the scan has skipped is no character. */
  predicate Single(text: seq<nat>, e: Entity) {
    e.begin < e.end <= |text| && BidiScan.NoCharacters(text, e.begin + 1, e.end)
  }

  /** Of an entity that the scan cuts: no two characters are in it. */
  lemma SingleIs(text: seq<nat>, dir: nat -> Kind, paragraph: nat, e: Entity)
    requires BidiScan.Uniform(text, dir, paragraph, e)
    ensures Single(text, e) <==>
            forall i, j | e.begin <= i < j < e.end :: !(BidiScan.IsPlain(text[i]) && BidiScan.IsPlain(text[j]))
  {
    if !Single(text, e) {
      var j :| e.begin < j < e.end && BidiScan.IsPlain(text[j]);
      assert BidiScan.IsPlain(text[e.begin]);
    }
  }

  /** A single separator between two equal numbers of its run. */
  predicate BetweenNumbers(text: seq<nat>, v: seq<Entity>, i: nat)
    requires i < |v|
  {
    && IsSeparator(v[i].kind) && Single(text, v[i]) && Joined(v, i) && JoinedOn(v, i)
    && v[Prev(v, i)].kind == v[Next(v, i)].kind
    && (v[Next(v, i)].kind == EN || (v[i].kind == CS && v[Next(v, i)].kind == AN))
  }

  function W4(text: seq<nat>, v: seq<Entity>): seq<Entity> {
    seq(|v|, i requires 0 <= i < |v| =>
      if BetweenNumbers(text, v, i) then v[i].(kind := v[Next(v, i)].kind) else v[i])
  }

  /** Terminators, and nothing else, lead back to a European number of the run. */
  predicate TerminatorsBackToEN(v: seq<Entity>, i: nat)
    requires i < |v|
  {
    Joined(v, i)
    && (v[Prev(v, i)].kind == EN || (v[Prev(v, i)].kind == ET && TerminatorsBackToEN(v, Prev(v, i))))
  }

  predicate TerminatorsOnToEN(v: seq<Entity>, i: nat)
    requires i < |v|
    decreases |v| - i
  {
    JoinedOn(v, i)
    && (v[Next(v, i)].kind == EN || (v[Next(v, i)].kind == ET && TerminatorsOnToEN(v, Next(v, i))))
  }

  function W5(v: seq<Entity>): seq<Entity> {
    seq(|v|, i requires 0 <= i < |v| =>
      if v[i].kind == ET && (TerminatorsBackToEN(v, i) || TerminatorsOnToEN(v, i)) then v[i].(kind := EN) else v[i])
  }

  function W6(v: seq<Entity>): seq<Entity> {
    seq(|v|, i requires 0 <= i < |v| =>
      if IsSeparator(v[i].kind) || v[i].kind == ET then v[i].(kind := ON) else v[i])
  }

  function W4ToW6(text: seq<nat>, v: seq<Entity>): (w: seq<Entity>)
    ensures |w| == |v|
  {
    W6(W5(W4(text, v)))
  }

  // ---------- W7 ----------

  function W7(v: seq<Entity>, paragraph: nat): (w: seq<Entity>)
    ensures |w| == |v|
  {
    seq(|v|, i requires 0 <= i < |v| =>
      if v[i].kind == EN && StrongBefore(v, paragraph, i, {L, R}) == L then v[i].(kind := L) else v[i])
  }

  function W1ToW7(text: seq<nat>, v: seq<Entity>, paragraph: nat): seq<Entity> {
    W7(W4ToW6(text, W1ToW3(v, paragraph)), paragraph)
  }

  // ---------- N1 and N2 ----------

  /** Numbers count as R when they stand beside a neutral. */
  function Direction(k: Kind): Kind {
    if k == EN || k == AN then R else k
  }

  function DirectionBefore(v: seq<Entity>, paragraph: nat, i: nat): Kind
    requires i < |v|
  {
    if !Joined(v, i) then SorAt(v, paragraph, i)
    else if IsNeutral(v[Prev(v, i)].kind) then DirectionBefore(v, paragraph, Prev(v, i))
    else Direction(v[Prev(v, i)].kind)
  }

  function DirectionAfter(v: seq<Entity>, paragraph: nat, i: nat): Kind
    requires i < |v|
    decreases |v| - i
  {
    if !JoinedOn(v, i) then EorAt(v, paragraph, i)
    else if IsNeutral(v[Next(v, i)].kind) then DirectionAfter(v, paragraph, Next(v, i))
    else Direction(v[Next(v, i)].kind)
  }

  function N1N2Kind(v: seq<Entity>, paragraph: nat, i: nat): Kind
    requires i < |v|
  {
    if !IsNeutral(v[i].kind) then v[i].kind
    else if DirectionBefore(v, paragraph, i) == DirectionAfter(v, paragraph, i) == L then L
    else if DirectionBefore(v, paragraph, i) == DirectionAfter(v, paragraph, i) == R then R
    else Sor(v[i].level)
  }

  function N1N2(v: seq<Entity>, paragraph: nat): seq<Entity> {
    seq(|v|, i requires 0 <= i < |v| => v[i].(kind := N1N2Kind(v, paragraph, i)))
  }

  // ---------- L1 ----------

  /** A segment or paragraph separator, or white space in front of one or at the end of the line. */
  predicate Trailing(v: seq<Entity>, i: nat)
    requires i < |v|
    decreases |v| - i
  {
    v[i].kind == S || v[i].kind == B || (v[i].kind == WS && (Next(v, i) == |v| || Trailing(v, Next(v, i))))
  }

  /** From i to e there is nothing but white space, BN apart. */
  predicate WhiteUpTo(v: seq<Entity>, i: nat, e: nat)
    requires i <= e <= |v|
  {
    forall k | i <= k < e :: v[k].kind == WS || v[k].kind == BN
  }

  /** The white space that L1 speaks of, outright. */
  lemma {:induction false} TrailingIs(v: seq<Entity>, i: nat)
    requires i < |v| && v[i].kind == WS
    ensures Trailing(v, i) <==> exists e | i < e <= |v| ::
                                  WhiteUpTo(v, i, e) && (e == |v| || v[e].kind == S || v[e].kind == B)
    decreases |v| - i
  {
    var n := Next(v, i);
    if n == |v| {
      assert WhiteUpTo(v, i, n);
    } else if v[n].kind == WS {
      TrailingIs(v, n);
      forall e | i < e <= |v|
        ensures WhiteUpTo(v, i, e) && (e == |v| || v[e].kind == S || v[e].kind == B)
                <==> n < e && WhiteUpTo(v, n, e) && (e == |v| || v[e].kind == S || v[e].kind == B)
      {
      }
    } else if v[n].kind == S || v[n].kind == B {
      assert WhiteUpTo(v, i, n);
    }
  }

  /** Separators and trailing white space of v go back to the paragraph's level. */
  function L1(v: seq<Entity>, resolved: seq<Entity>, paragraph: nat): seq<Entity>
    requires |resolved| == |v|
  {
    seq(|v|, i requires 0 <= i < |v| => if Trailing(v, i) then resolved[i].(level := paragraph) else resolved[i])
  }

  // ---------- Neighbours stay where they are ----------

  /** Only kinds differ, and none of them becomes or ceases to be BN. */
  predicate SameBN(v: seq<Entity>, w: seq<Entity>) {
    SameShape(v, w) && forall i | 0 <= i < |v| :: v[i].kind == BN <==> w[i].kind == BN
  }

  lemma {:induction false} PrevSame(v: seq<Entity>, w: seq<Entity>, i: nat)
    requires SameBN(v, w) && i <= |v|
    ensures Prev(v, i) == Prev(w, i)
  {
    if i > 0 && v[i - 1].kind == BN {
      PrevSame(v, w, i - 1);
    }
  }

  lemma {:induction false} NextSame(v: seq<Entity>, w: seq<Entity>, i: nat)
    requires SameBN(v, w) && i < |v|
    ensures Next(v, i) == Next(w, i)
    decreases |v| - i
  {
    if i + 1 < |v| && v[i + 1].kind == BN {
      NextSame(v, w, i + 1);
    }
  }

  lemma JoinedSame(v: seq<Entity>, w: seq<Entity>, i: nat)
    requires SameBN(v, w) && i < |v|
    ensures Prev(v, i) == Prev(w, i) && Next(v, i) == Next(w, i)
    ensures Joined(v, i) == Joined(w, i) && JoinedOn(v, i) == JoinedOn(w, i)
    ensures forall p: nat :: SorAt(v, p, i) == SorAt(w, p, i)
  {
    PrevSame(v, w, i);
    NextSame(v, w, i);
  }

  lemma {:induction false} NextOfPrev(v: seq<Entity>, k: nat, i: nat)
    requires k < i < |v| && v[i].kind != BN && forall j | k < j < i :: v[j].kind == BN
    ensures Next(v, k) == i
    decreases i - k
  {
    if k + 1 < i {
      NextOfPrev(v, k + 1, i);
    }
  }

  lemma {:induction false} PrevOfNext(v: seq<Entity>, k: nat, i: nat)
    requires k < i <= |v| && v[k].kind != BN && forall j | k < j < i :: v[j].kind == BN
    ensures Prev(v, i) == k
    decreases i - k
  {
    if k + 1 < i {
      PrevOfNext(v, k, i - 1);
    }
  }
}
