/** The three loops of the source that stand for rules W1 to W7, and where they keep to the rules. */
module BidiWeak {
  import opened BidiTypes
  import opened BidiRules

  // ---------- The first loop: W1 to W3 in one pass ----------

  /** The flag that the loop carries: the last of L, R and AL seen so far is AL. It looks at
      the kinds as they were, and it does not stop at the start of a level run. */
  predicate AfterAL(v: seq<Entity>, i: nat)
    requires i <= |v|
  {
    i > 0 && (v[i - 1].kind == AL || (v[i - 1].kind != L && v[i - 1].kind != R && AfterAL(v, i - 1)))
  }

  /** The kind the loop leaves at i. A mark takes what has been written before it; where the level
      changes it takes the direction of its own level. */
  function FusedKind(v: seq<Entity>, i: nat): Kind
    requires i < |v|
  {
    match v[i].kind
    case NSM => if RunStart(v, i) then Sor(v[i].level) else FusedKind(v, i - 1)
    case AL => R
    case EN => if AfterAL(v, i) then AN else EN
    case k => k
  }

  function Fused123(v: seq<Entity>): (w: seq<Entity>)
    ensures |w| == |v|
  {
    seq(|v|, i requires 0 <= i < |v| => v[i].(kind := FusedKind(v, i)))
  }

  /** One turn of the loop, from what it carries. */
  lemma FusedTurn(v: seq<Entity>, i: nat)
    requires i < |v|
    ensures FusedKind(v, i) ==
            match v[i].kind
            case NSM => if RunStart(v, i) then Sor(v[i].level) else FusedKind(v, i - 1)
            case AL => R
            case EN => if AfterAL(v, i) then AN else EN
            case k => k
    ensures AfterAL(v, i + 1) == (v[i].kind == AL || (v[i].kind != L && v[i].kind != R && AfterAL(v, i)))
    ensures !AfterAL(v, 0)
  {
  }

  /** A strong character stands before i in its level run. */
  predicate StrongInRun(v: seq<Entity>, i: nat)
    requires i < |v|
  {
    Joined(v, i) && (v[Prev(v, i)].kind in {L, R, AL} || StrongInRun(v, Prev(v, i)))
  }

  /** W2 should have stopped at the start of the run; the carried flag still answers for an earlier one. */
  predicate Leaks(v: seq<Entity>, i: nat)
    requires i < |v|
  {
    v[i].kind == EN && AfterAL(v, i) && !StrongInRun(v, i)
  }

  /** A mark directly behind a boundary neutral of its level, which the loop takes for its base. */
  predicate MarkBehindBN(v: seq<Entity>, i: nat)
    requires i < |v|
  {
    v[i].kind == NSM && !RunStart(v, i) && v[i - 1].kind == BN
  }

  /** A mark where the level changes, whose base or start-of-run type is not the direction of its level. */
  predicate MarkMisled(v: seq<Entity>, paragraph: nat, i: nat)
    requires i < |v|
  {
    v[i].kind == NSM && RunStart(v, i)
    && Sor(v[i].level) != if Joined(v, i) then FusedKind(v, Prev(v, i)) else SorAt(v, paragraph, i)
  }

  predicate FirstDeviates(v: seq<Entity>, paragraph: nat, i: nat)
    requires i < |v|
  {
    Leaks(v, i) || MarkBehindBN(v, i) || MarkMisled(v, paragraph, i)
  }

  lemma {:induction false} AfterALPast(v: seq<Entity>, k: nat, i: nat)
    requires k < i <= |v| && forall j | k < j < i :: v[j].kind == BN
    ensures AfterAL(v, i) == AfterAL(v, k + 1)
    decreases i - k
  {
    if k + 1 < i {
      AfterALPast(v, k, i - 1);
    }
  }

  /** What W1 makes of a mark is AL just when the last strong character of its run is. */
  lemma {:induction false} MarkAfterStrong(v: seq<Entity>, paragraph: nat, i: nat)
    requires i < |v| && v[i].kind == NSM && W1Kind(v, paragraph, i) in {L, R, AL}
    ensures W1Kind(v, paragraph, i) == AL <==> StrongInRun(v, i) && AfterAL(v, i)
  {
    if Joined(v, i) {
      var k := Prev(v, i);
      AfterALPast(v, k, i);
      if v[k].kind == NSM {
        MarkAfterStrong(v, paragraph, k);
      }
    }
  }

  lemma {:induction false} SearchAfterW1(v: seq<Entity>, paragraph: nat, i: nat)
    requires i < |v|
    ensures StrongBefore(W1(v, paragraph), paragraph, i, {L, R, AL}) == AL <==> StrongInRun(v, i) && AfterAL(v, i)
  {
    hide SorAt;
    var w := W1(v, paragraph);
    JoinedSame(v, w, i);
    if Joined(v, i) {
      var k := Prev(v, i);
      AfterALPast(v, k, i);
      SearchAfterW1(v, paragraph, k);
      if v[k].kind == NSM && w[k].kind in {L, R, AL} {
        MarkAfterStrong(v, paragraph, k);
      }
    }
  }

  function RuleKind(v: seq<Entity>, paragraph: nat, i: nat): (k: Kind)
    requires i < |v|
  {
    W1ToW3(v, paragraph)[i].kind
  }

  /** The kind after W1, after W2 and W3. */
  lemma RuleAfterW1(v: seq<Entity>, paragraph: nat, i: nat)
    requires i < |v|
    ensures RuleKind(v, paragraph, i) ==
            match W1Kind(v, paragraph, i)
            case AL => R
            case EN => if StrongBefore(W1(v, paragraph), paragraph, i, {L, R, AL}) == AL then AN else EN
            case k => k
  {
    hide StrongBefore, W1Kind;
  }

  lemma SearchPastNumber(v: seq<Entity>, paragraph: nat, i: nat)
    requires i < |v| && v[i].kind == NSM && Joined(v, i) && W1Kind(v, paragraph, i) == EN
    ensures var w := W1(v, paragraph);
            StrongBefore(w, paragraph, i, {L, R, AL}) == StrongBefore(w, paragraph, Prev(v, i), {L, R, AL})
  {
    var w := W1(v, paragraph);
    JoinedSame(v, w, i);
    assert w[Prev(v, i)].kind == EN;
  }

  /** The rules, kind by kind. */
  lemma RuleKindIs(v: seq<Entity>, paragraph: nat, i: nat)
    requires i < |v|
    ensures RuleKind(v, paragraph, i) ==
            match v[i].kind
            case NSM => if Joined(v, i) then RuleKind(v, paragraph, Prev(v, i)) else SorAt(v, paragraph, i)
            case AL => R
            case EN => if StrongInRun(v, i) && AfterAL(v, i) then AN else EN
            case k => k
    ensures RuleKind(v, paragraph, i) == BN <==> v[i].kind == BN
  {
    hide RuleKind, StrongBefore, SorAt;
    RuleAfterW1(v, paragraph, i);
    if v[i].kind == EN {
      SearchAfterW1(v, paragraph, i);
    } else if v[i].kind == NSM && Joined(v, i) {
      RuleAfterW1(v, paragraph, Prev(v, i));
      if W1Kind(v, paragraph, i) == EN {
        SearchPastNumber(v, paragraph, i);
      }
    }
  }

  /** Where the loop and the rules agree so far, they agree on the next entity exactly when it does not deviate. */
  lemma FirstStep(v: seq<Entity>, paragraph: nat, i: nat)
    requires i < |v| && forall j | 0 <= j < i :: FusedKind(v, j) == RuleKind(v, paragraph, j)
    ensures FusedKind(v, i) == RuleKind(v, paragraph, i) <==> !FirstDeviates(v, paragraph, i)
  {
    RuleKindIs(v, paragraph, i);
    if v[i].kind == NSM && !RunStart(v, i) && v[i - 1].kind != BN {
      assert Prev(v, i) == i - 1;
    }
  }

  lemma {:induction false} FirstAgrees(v: seq<Entity>, paragraph: nat, i: nat)
    requires i <= |v| && forall j | 0 <= j < |v| :: !FirstDeviates(v, paragraph, j)
    ensures forall j | 0 <= j < i :: FusedKind(v, j) == RuleKind(v, paragraph, j)
  {
    if i > 0 {
      FirstAgrees(v, paragraph, i - 1);
      FirstStep(v, paragraph, i - 1);
    }
  }

  lemma SameKinds(v: seq<Entity>, a: seq<Entity>, b: seq<Entity>)
    requires SameShape(v, a) && SameShape(v, b)
    ensures a == b <==> forall i | 0 <= i < |v| :: a[i].kind == b[i].kind
  {
    if forall i | 0 <= i < |v| :: a[i].kind == b[i].kind {
      assert forall i | 0 <= i < |v| :: a[i] == b[i];
    }
  }

  /** On all levels and kinds, the combined loop equals W1, then W2, then W3 exactly when no
      entity is a leak, a mark behind a boundary neutral or a misled mark. */
  lemma FusedIsW1W2W3(v: seq<Entity>, paragraph: nat)
    ensures Fused123(v) == W1ToW3(v, paragraph) <==> forall i | 0 <= i < |v| :: !FirstDeviates(v, paragraph, i)
  {
    SameKinds(v, Fused123(v), W1ToW3(v, paragraph));
    assert forall i | 0 <= i < |v| :: Fused123(v)[i].kind == FusedKind(v, i);
    if forall i | 0 <= i < |v| :: !FirstDeviates(v, paragraph, i) {
      FirstAgrees(v, paragraph, |v|);
    } else {
      var i :| 0 <= i < |v| && FirstDeviates(v, paragraph, i);
      if forall j | 0 <= j < i :: FusedKind(v, j) == RuleKind(v, paragraph, j) {
        FirstStep(v, paragraph, i);
      }
    }
  }

  lemma {:induction false} OneLevelNoLeak(v: seq<Entity>, i: nat)
    requires OneLevel(v) && i < |v| && AfterAL(v, i)
    ensures StrongInRun(v, i)
  {
    if v[i - 1].kind == BN {
      OneLevelNoLeak(v, i - 1);
    } else if v[i - 1].kind !in {L, R, AL} {
      OneLevelNoLeak(v, i - 1);
    }
  }

  /** On one level run at the paragraph's level only marks behind a boundary neutral are in the way. */
  lemma FusedOnOneRun(v: seq<Entity>, paragraph: nat)
    requires OneLevel(v) && (v == [] || v[0].level == paragraph)
    ensures Fused123(v) == W1ToW3(v, paragraph) <==> forall i | 0 <= i < |v| :: !MarkBehindBN(v, i)
  {
    FusedIsW1W2W3(v, paragraph);
    forall i | 0 <= i < |v|
      ensures FirstDeviates(v, paragraph, i) <==> MarkBehindBN(v, i)
    {
      if AfterAL(v, i) {
        OneLevelNoLeak(v, i);
      }
    }
  }

  /** An Arabic letter at level 1 turns a digit of the next run into an Arabic number. */
  lemma LeakExample()
    ensures var v := [Entity(0, 1, AL, 1), Entity(2, 3, EN, 2)];
            Fused123(v)[1].kind == AN && W1ToW3(v, 1)[1].kind == EN
  {
    var v := [Entity(0, 1, AL, 1), Entity(2, 3, EN, 2)];
    assert AfterAL(v, 1) && Prev(v, 1) == 0;
    RuleKindIs(v, 1, 1);
  }

  /** A mark outside an embedding, behind its right-to-left text: the start-of-run type is R, the loop writes L. */
  lemma MarkMisledExample()
    ensures var v := [Entity(0, 1, R, 1), Entity(2, 3, NSM, 0)];
            Fused123(v)[1].kind == L && W1ToW3(v, 0)[1].kind == R
  {
    var v := [Entity(0, 1, R, 1), Entity(2, 3, NSM, 0)];
    assert Prev(v, 1) == 0;
    RuleKindIs(v, 0, 1);
  }

  /** A zero-width space between a letter and its mark: the loop turns the mark into a boundary neutral. */
  lemma MarkBehindBNExample()
    ensures var v := [Entity(0, 1, R, 0), Entity(1, 2, BN, 0), Entity(2, 3, NSM, 0)];
            Fused123(v)[2].kind == BN && W1ToW3(v, 0)[2].kind == R
  {
    var v := [Entity(0, 1, R, 0), Entity(1, 2, BN, 0), Entity(2, 3, NSM, 0)];
    assert Prev(v, 1) == 0 && Prev(v, 2) == 0;
    assert FusedKind(v, 1) == BN;
    RuleKindIs(v, 0, 0);
    RuleKindIs(v, 0, 2);
  }

  // ---------- The second loop: W4 to W6 in one pass ----------

  /** The loop's `head` flag is still set at i: no separator has been met. */
  predicate AtHead(v: seq<Entity>, i: nat)
    requires i <= |v|
  {
    i == 0 || (!IsSeparator(v[i - 1].kind) && AtHead(v, i - 1))
  }

  /** The end of the terminators that start at i. */
  function TerminatorEnd(v: seq<Entity>, i: nat): (e: nat)
    requires i <= |v|
    ensures i <= e <= |v|
    ensures forall k | i <= k < e :: v[k].kind == ET
    ensures e < |v| ==> v[e].kind != ET
    decreases |v| - i
  {
    if i < |v| && v[i].kind == ET then TerminatorEnd(v, i + 1) else i
  }

  /** The kind the loop leaves at i. It looks at what it has already written to the left. */
  function SecondKind(v: seq<Entity>, i: nat): Kind
    requires i < |v|
  {
    match v[i].kind
    case ES =>
      if !AtHead(v, i) && i + 1 < |v| && SecondKind(v, i - 1) == EN && v[i + 1].kind == EN then EN else ON
    case CS =>
      if !AtHead(v, i) && i + 1 < |v| && SecondKind(v, i - 1) == v[i + 1].kind
         && (v[i + 1].kind == AN || v[i + 1].kind == EN) then v[i + 1].kind else ON
    case ET =>
      var e := TerminatorEnd(v, i);
      if e < |v| && v[e].kind == EN then EN
      else if !AtHead(v, i) && SecondKind(v, i - 1) == EN then EN else ON
    case k => k
  }

  function Second456(v: seq<Entity>): (w: seq<Entity>)
    ensures |w| == |v|
  {
    seq(|v|, i requires 0 <= i < |v| => v[i].(kind := SecondKind(v, i)))
  }

  lemma {:induction false} TerminatorEndIs(v: seq<Entity>, i: nat, e: nat)
    requires i <= e <= |v|
    requires forall k | i <= k < e :: v[k].kind == ET
    requires e < |v| ==> v[e].kind != ET
    ensures TerminatorEnd(v, i) == e
    decreases e - i
  {
    if i < e {
      TerminatorEndIs(v, i + 1, e);
    }
  }

  /** The terminators a..i have not been decided yet: nothing to their left makes them numbers. */
  predicate Waiting(v: seq<Entity>, a: nat, i: nat)
    requires i <= |v|
  {
    && a < i
    && (forall k | a <= k < i :: v[k].kind == ET)
    && (a > 0 && !AtHead(v, a) ==> SecondKind(v, a - 1) != EN)
  }

  /** How waiting terminators are decided by what ends them. */
  lemma {:induction false} WaitingEnds(v: seq<Entity>, a: nat, e: nat, k: nat)
    requires a <= k < e <= |v| && Waiting(v, a, e)
    requires e < |v| ==> v[e].kind != ET
    ensures SecondKind(v, k) == if e < |v| && v[e].kind == EN then EN else ON
    decreases k
  {
    TerminatorEndIs(v, k, e);
    if k > a {
      WaitingEnds(v, a, e, k - 1);
    }
  }

  /** Terminators, and nothing else, lead back to a European number, whatever the levels. */
  predicate DigitBack(v: seq<Entity>, i: nat)
    requires i <= |v|
  {
    i > 0 && (v[i - 1].kind == EN || (v[i - 1].kind == ET && DigitBack(v, i - 1)))
  }

  predicate DigitOn(v: seq<Entity>, i: nat)
    requires i < |v|
    decreases |v| - i
  {
    i + 1 < |v| && (v[i + 1].kind == EN || (v[i + 1].kind == ET && DigitOn(v, i + 1)))
  }

  /** The separators that the loop makes numbers: not the first of the text, a number directly behind,
      and before it the same kind of number or the terminators of a European one. */
  predicate Taken(v: seq<Entity>, i: nat)
    requires i < |v|
  {
    && IsSeparator(v[i].kind) && !AtHead(v, i) && i + 1 < |v|
    && (|| (v[i + 1].kind == EN && DigitBack(v, i))
        || (v[i].kind == CS && v[i + 1].kind == AN && v[i - 1].kind == AN))
  }

  lemma {:induction false} DigitOnIsEnd(v: seq<Entity>, i: nat)
    requires i < |v| && v[i].kind == ET
    ensures DigitOn(v, i) <==> TerminatorEnd(v, i) < |v| && v[TerminatorEnd(v, i)].kind == EN
    decreases |v| - i
  {
    if i + 1 < |v| && v[i + 1].kind == ET {
      DigitOnIsEnd(v, i + 1);
    }
  }

  /** Which terminators the loop makes numbers. */
  lemma {:induction false} SecondOnTerminators(v: seq<Entity>, i: nat)
    requires i < |v| && v[i].kind == ET
    ensures SecondKind(v, i) == if DigitOn(v, i) || (!AtHead(v, i) && DigitBack(v, i)) then EN else ON
  {
    DigitOnIsEnd(v, i);
    if i > 0 && v[i - 1].kind == ET {
      SecondOnTerminators(v, i - 1);
    }
  }

  lemma SecondOnSeparators(v: seq<Entity>, i: nat)
    requires i < |v| && IsSeparator(v[i].kind)
    ensures SecondKind(v, i) == if Taken(v, i) then v[i + 1].kind else ON
  {
    if i > 0 && v[i - 1].kind == ET {
      SecondOnTerminators(v, i - 1);
    }
  }

  // ---------- Where the second loop and the rules part ----------

  /** A separator that W4 makes a number, but it is the first of the text or a boundary neutral stands beside it. */
  predicate SeparatorLost(text: seq<nat>, v: seq<Entity>, i: nat)
    requires i < |v|
  {
    BetweenNumbers(text, v, i) && (AtHead(v, i) || v[i - 1].kind == BN || v[i + 1].kind == BN)
  }

  /** A separator that the loop makes a number, but it is longer than one character, stands at the
      edge of its run, or has terminators before it. */
  predicate SeparatorGained(text: seq<nat>, v: seq<Entity>, i: nat)
    requires i < |v|
  {
    Taken(v, i)
    && (!Single(text, v[i]) || v[i - 1].level != v[i].level || v[i + 1].level != v[i].level || v[i - 1].kind == ET)
  }

  /** Terminators of a number of their run, but a boundary neutral hides it from the loop, or they
      follow it before any separator. */
  predicate TerminatorLost(v: seq<Entity>, i: nat)
    requires i < |v|
  {
    v[i].kind == ET && (TerminatorsBackToEN(v, i) || TerminatorsOnToEN(v, i))
    && !DigitOn(v, i) && (AtHead(v, i) || !DigitBack(v, i))
  }

  /** Terminators beside a number of another run. */
  predicate TerminatorGained(v: seq<Entity>, i: nat)
    requires i < |v|
  {
    v[i].kind == ET && !TerminatorsBackToEN(v, i) && !TerminatorsOnToEN(v, i)
    && (DigitOn(v, i) || (!AtHead(v, i) && DigitBack(v, i)))
  }

  predicate SecondDeviates(text: seq<nat>, v: seq<Entity>, i: nat)
    requires i < |v|
  {
    SeparatorLost(text, v, i) || SeparatorGained(text, v, i) || TerminatorLost(v, i) || TerminatorGained(v, i)
  }

  // The shapes in a text without boundary neutrals, by what stands where.

  predicate NoBN(v: seq<Entity>) {
    forall k | 0 <= k < |v| :: v[k].kind != BN
  }

  /** The level changes on the way back over terminators. */
  predicate ChangesBack(v: seq<Entity>, i: nat)
    requires i < |v|
  {
    RunStart(v, i) || (v[i - 1].kind == ET && ChangesBack(v, i - 1))
  }

  predicate ChangesOn(v: seq<Entity>, i: nat)
    requires i < |v|
    decreases |v| - i
  {
    i + 1 == |v| || v[i + 1].level != v[i].level || (v[i + 1].kind == ET && ChangesOn(v, i + 1))
  }

  lemma {:induction false} BackPlainly(v: seq<Entity>, i: nat)
    requires NoBN(v) && i < |v|
    ensures TerminatorsBackToEN(v, i) <==> DigitBack(v, i) && !ChangesBack(v, i)
  {
    if i > 0 {
      assert Prev(v, i) == i - 1;
      BackPlainly(v, i - 1);
    }
  }

  lemma {:induction false} OnPlainly(v: seq<Entity>, i: nat)
    requires NoBN(v) && i < |v|
    ensures TerminatorsOnToEN(v, i) <==> DigitOn(v, i) && !ChangesOn(v, i)
    decreases |v| - i
  {
    assert Next(v, i) == i + 1;
    if i + 1 < |v| {
      OnPlainly(v, i + 1);
    }
  }

  /** Without boundary neutrals: terminators are lost before the first separator, behind a number of
      their run and none ahead; they are gained when every number they lead to is of another run. */
  lemma TerminatorsPlainly(v: seq<Entity>, i: nat)
    requires NoBN(v) && i < |v| && v[i].kind == ET
    ensures TerminatorLost(v, i) <==> AtHead(v, i) && DigitBack(v, i) && !ChangesBack(v, i) && !DigitOn(v, i)
    ensures TerminatorGained(v, i) <==>
              && (DigitOn(v, i) || (DigitBack(v, i) && !AtHead(v, i)))
              && (DigitOn(v, i) ==> ChangesOn(v, i)) && (DigitBack(v, i) ==> ChangesBack(v, i))
  {
    BackPlainly(v, i);
    OnPlainly(v, i);
  }

  /** Without boundary neutrals a mark is misled exactly where its level meets a higher one of the other direction. */
  lemma MarkMisledPlainly(v: seq<Entity>, paragraph: nat, i: nat)
    requires NoBN(v) && i < |v| && v[i].kind == NSM
    ensures MarkMisled(v, paragraph, i) <==>
              var before := if i == 0 then paragraph else v[i - 1].level;
              RunStart(v, i) && before > v[i].level && Sor(before) != Sor(v[i].level)
  {
  }

  lemma W4KeepsBN(text: seq<nat>, v: seq<Entity>)
    ensures SameBN(v, W4(text, v))
  {
  }

  lemma {:induction false} W4KeepsBack(text: seq<nat>, v: seq<Entity>, i: nat)
    requires i < |v| && v[i].kind == ET
    ensures TerminatorsBackToEN(W4(text, v), i) <==> TerminatorsBackToEN(v, i)
  {
    W4KeepsBN(text, v);
    JoinedSame(v, W4(text, v), i);
    if Joined(v, i) {
      var k := Prev(v, i);
      NextOfPrev(v, k, i);
      if v[k].kind == ET {
        W4KeepsBack(text, v, k);
      }
    }
  }

  lemma {:induction false} W4KeepsOn(text: seq<nat>, v: seq<Entity>, i: nat)
    requires i < |v| && v[i].kind == ET
    ensures TerminatorsOnToEN(W4(text, v), i) <==> TerminatorsOnToEN(v, i)
    decreases |v| - i
  {
    W4KeepsBN(text, v);
    JoinedSame(v, W4(text, v), i);
    if JoinedOn(v, i) {
      var k := Next(v, i);
      PrevOfNext(v, i, k);
      if v[k].kind == ET {
        W4KeepsOn(text, v, k);
      }
    }
  }

  /** The rules, kind by kind. */
  lemma SecondRuleIs(text: seq<nat>, v: seq<Entity>, i: nat)
    requires i < |v|
    ensures W4ToW6(text, v)[i].kind ==
            if IsSeparator(v[i].kind) then (if BetweenNumbers(text, v, i) then v[Next(v, i)].kind else ON)
            else if v[i].kind == ET then (if TerminatorsBackToEN(v, i) || TerminatorsOnToEN(v, i) then EN else ON)
            else v[i].kind
  {
    hide TerminatorsBackToEN, TerminatorsOnToEN, BetweenNumbers;
    if BetweenNumbers(text, v, i) {
      BetweenIsNumber(text, v, i);
    }
    if v[i].kind == ET {
      W4KeepsBack(text, v, i);
      W4KeepsOn(text, v, i);
    }
  }

  lemma BetweenIsNumber(text: seq<nat>, v: seq<Entity>, i: nat)
    requires i < |v| && BetweenNumbers(text, v, i)
    ensures IsSeparator(v[i].kind) && Next(v, i) < |v| && v[Next(v, i)].kind in {EN, AN}
  {
  }

  /** Between numbers and taken, or neither, unless the separator deviates. */
  lemma SeparatorsPart(text: seq<nat>, v: seq<Entity>, i: nat)
    requires i < |v| && IsSeparator(v[i].kind)
    ensures BetweenNumbers(text, v, i) && !Taken(v, i) <==> SeparatorLost(text, v, i)
    ensures !BetweenNumbers(text, v, i) && Taken(v, i) <==> SeparatorGained(text, v, i)
    ensures BetweenNumbers(text, v, i) && Taken(v, i) ==> Next(v, i) == i + 1
  {
  }

  /** Where the loop deviates, one side has a neutral and the other a number. */
  lemma SecondPointwise(text: seq<nat>, v: seq<Entity>, i: nat)
    requires i < |v|
    ensures Second456(v)[i].kind == W4ToW6(text, v)[i].kind <==> !SecondDeviates(text, v, i)
    ensures SecondDeviates(text, v, i) ==>
              var code, rules := Second456(v)[i].kind, W4ToW6(text, v)[i].kind;
              (code == ON && rules in {EN, AN}) || (code in {EN, AN} && rules == ON)
  {
    hide W4ToW6, BetweenNumbers, Taken, TerminatorsBackToEN, TerminatorsOnToEN;
    hide SeparatorLost, SeparatorGained, DigitOn, DigitBack;
    SecondRuleIs(text, v, i);
    if IsSeparator(v[i].kind) {
      SecondOnSeparators(v, i);
      SeparatorsPart(text, v, i);
      if BetweenNumbers(text, v, i) {
        BetweenIsNumber(text, v, i);
      }
      if Taken(v, i) {
        TakenIsNumber(v, i);
      }
    } else {
      NoSeparator(text, v, i);
      if v[i].kind == ET {
        SecondOnTerminators(v, i);
      }
    }
  }

  lemma TakenIsNumber(v: seq<Entity>, i: nat)
    requires i < |v| && Taken(v, i)
    ensures i + 1 < |v| && v[i + 1].kind in {EN, AN}
  {
  }

  lemma NoSeparator(text: seq<nat>, v: seq<Entity>, i: nat)
    requires i < |v| && !IsSeparator(v[i].kind)
    ensures !SeparatorLost(text, v, i) && !SeparatorGained(text, v, i)
  {
  }

  /** On all levels and kinds, the second loop equals W4, then W5, then W6 exactly when no entity
      is of one of the four shapes. */
  lemma SecondIsW4W5W6(text: seq<nat>, v: seq<Entity>)
    ensures Second456(v) == W4ToW6(text, v) <==> forall i | 0 <= i < |v| :: !SecondDeviates(text, v, i)
  {
    SameKinds(v, Second456(v), W4ToW6(text, v));
    forall i | 0 <= i < |v|
      ensures Second456(v)[i].kind == W4ToW6(text, v)[i].kind <==> !SecondDeviates(text, v, i)
    {
      SecondPointwise(text, v, i);
    }
  }

  /** The same kinds in a single level run. */
  function Flat(v: seq<Entity>): seq<Entity> {
    seq(|v|, i requires 0 <= i < |v| => v[i].(level := 0))
  }

  lemma {:induction false} FlatTerminatorEnd(v: seq<Entity>, i: nat)
    requires i <= |v|
    ensures TerminatorEnd(Flat(v), i) == TerminatorEnd(v, i)
    decreases |v| - i
  {
    if i < |v| {
      FlatTerminatorEnd(v, i + 1);
    }
  }

  lemma {:induction false} FlatSecondKind(v: seq<Entity>, i: nat)
    requires i < |v|
    ensures SecondKind(Flat(v), i) == SecondKind(v, i) && AtHead(Flat(v), i) == AtHead(v, i)
  {
    FlatTerminatorEnd(v, i);
    if i > 0 {
      FlatSecondKind(v, i - 1);
    }
  }

  /** On any levels the loop treats the whole text as one level run: its kinds are those of W4, W5
      and W6 on the flattened text exactly when that text has none of the four shapes. */
  lemma SecondIgnoresRuns(text: seq<nat>, v: seq<Entity>)
    ensures Flat(Second456(v)) == W4ToW6(text, Flat(v))
            <==> forall i | 0 <= i < |v| :: !SecondDeviates(text, Flat(v), i)
  {
    hide W4ToW6, SecondDeviates;
    forall i | 0 <= i < |v|
      ensures Flat(Second456(v))[i] == Second456(Flat(v))[i]
    {
      FlatSecondKind(v, i);
    }
    assert Flat(Second456(v)) == Second456(Flat(v));
    SecondIsW4W5W6(text, Flat(v));
  }

  /** "1%" in a left-to-right run: W5 makes the sign a number, the loop does not. */
  lemma TerminatorLostExample(text: seq<nat>)
    ensures var v := [Entity(0, 1, EN, 0), Entity(1, 2, ET, 0)];
            Second456(v)[1].kind == ON && W4ToW6(text, v)[1].kind == EN
  {
    var v := [Entity(0, 1, EN, 0), Entity(1, 2, ET, 0)];
    assert Prev(v, 1) == 0 && AtHead(v, 1) && !DigitOn(v, 1);
    SecondRuleIs(text, v, 1);
  }

  /** A terminator takes the kind of a digit that belongs to the next level run. */
  lemma TerminatorGainedExample(text: seq<nat>)
    ensures var v := [Entity(0, 1, ET, 1), Entity(2, 3, EN, 2)];
            Second456(v)[0].kind == EN && W4ToW6(text, v)[0].kind == ON
  {
    var v := [Entity(0, 1, ET, 1), Entity(2, 3, EN, 2)];
    assert Next(v, 0) == 1 && DigitOn(v, 0);
    SecondRuleIs(text, v, 0);
    SecondOnTerminators(v, 0);
  }

  /** "1,2++3" at level 1: W4 speaks of a single separator, the loop takes both plus signs. */
  lemma SeparatorGainedExample()
    ensures var text := [0x31, 0x2C, 0x32, 0x2B, 0x2B, 0x33];
            var v := [Entity(0, 1, EN, 1), Entity(1, 2, CS, 1), Entity(2, 3, EN, 1), Entity(3, 5, ES, 1),
                      Entity(5, 6, EN, 1)];
            Second456(v)[3].kind == EN && W4ToW6(text, v)[3].kind == ON
  {
    var text := [0x31, 0x2C, 0x32, 0x2B, 0x2B, 0x33];
    var v := [Entity(0, 1, EN, 1), Entity(1, 2, CS, 1), Entity(2, 3, EN, 1), Entity(3, 5, ES, 1), Entity(5, 6, EN, 1)];
    assert BidiScan.IsPlain(text[4]);
    assert !AtHead(v, 3) && DigitBack(v, 3) && Taken(v, 3);
    SecondOnSeparators(v, 3);
    SecondRuleIs(text, v, 3);
  }

  // ---------- The third loop: W7 ----------

  /** The flag that the loop carries, as a search: the last of L and R in the run before i, or the
      direction of the run's own level. */
  function OwnStrong(v: seq<Entity>, i: nat): (k: Kind)
    requires i < |v|
    ensures k == L || k == R
  {
    if RunStart(v, i) then Sor(v[i].level)
    else if v[i - 1].kind == L || v[i - 1].kind == R then v[i - 1].kind
    else OwnStrong(v, i - 1)
  }

  function ThirdKind(v: seq<Entity>, i: nat): Kind
    requires i < |v|
  {
    if v[i].kind == EN && OwnStrong(v, i) == L then L else v[i].kind
  }

  function Third7(v: seq<Entity>): (w: seq<Entity>)
    ensures |w| == |v|
  {
    seq(|v|, i requires 0 <= i < |v| => v[i].(kind := ThirdKind(v, i)))
  }

  /** No L or R stands between i and the last change of level before it. */
  predicate Unguided(v: seq<Entity>, i: nat)
    requires i < |v|
  {
    RunStart(v, i) || (v[i - 1].kind != L && v[i - 1].kind != R && Unguided(v, i - 1))
  }

  /** A number with no strong character since the level changed, where the rules find another
      direction than that of its level. */
  predicate ThirdDeviates(v: seq<Entity>, paragraph: nat, i: nat)
    requires i < |v|
  {
    v[i].kind == EN && Unguided(v, i) && StrongBefore(v, paragraph, i, {L, R}) != Sor(v[i].level)
  }

  lemma {:induction false} GuidedAlike(v: seq<Entity>, paragraph: nat, i: nat)
    requires i < |v|
    ensures Unguided(v, i) ==> OwnStrong(v, i) == Sor(v[i].level)
    ensures !Unguided(v, i) ==> OwnStrong(v, i) == StrongBefore(v, paragraph, i, {L, R})
    ensures StrongBefore(v, paragraph, i, {L, R}) in {L, R}
  {
    if Joined(v, i) {
      GuidedAlike(v, paragraph, Prev(v, i));
    }
    if !RunStart(v, i) {
      GuidedAlike(v, paragraph, i - 1);
      if v[i - 1].kind == BN {
        assert Prev(v, i) == Prev(v, i - 1);
      }
    }
  }

  lemma ThirdPointwise(v: seq<Entity>, paragraph: nat, i: nat)
    requires i < |v|
    ensures Third7(v)[i].kind == W7(v, paragraph)[i].kind <==> !ThirdDeviates(v, paragraph, i)
  {
    GuidedAlike(v, paragraph, i);
  }

  /** On all levels and kinds, the third loop equals W7 exactly when no number is misled by its own level. */
  lemma ThirdIsW7(v: seq<Entity>, paragraph: nat)
    ensures Third7(v) == W7(v, paragraph) <==> forall i | 0 <= i < |v| :: !ThirdDeviates(v, paragraph, i)
  {
    SameKinds(v, Third7(v), W7(v, paragraph));
    forall i | 0 <= i < |v|
      ensures Third7(v)[i].kind == W7(v, paragraph)[i].kind <==> !ThirdDeviates(v, paragraph, i)
    {
      ThirdPointwise(v, paragraph, i);
    }
  }

  lemma {:induction false} UnguidedOnOneRun(v: seq<Entity>, paragraph: nat, i: nat)
    requires OneLevel(v) && v != [] && v[0].level == paragraph && i < |v| && Unguided(v, i)
    ensures v[i].level == paragraph && StrongBefore(v, paragraph, i, {L, R}) == Sor(paragraph)
  {
    if i > 0 {
      UnguidedOnOneRun(v, paragraph, i - 1);
      if v[i - 1].kind == BN {
        assert Prev(v, i) == Prev(v, i - 1);
      }
    }
  }

  /** On one level run at the paragraph's level the third loop is W7. */
  lemma ThirdOnOneRun(v: seq<Entity>, paragraph: nat)
    requires OneLevel(v) && (v == [] || v[0].level == paragraph)
    ensures forall i | 0 <= i < |v| :: !ThirdDeviates(v, paragraph, i)
  {
    forall i | 0 <= i < |v| && Unguided(v, i)
      ensures StrongBefore(v, paragraph, i, {L, R}) == Sor(v[i].level)
    {
      UnguidedOnOneRun(v, paragraph, i);
    }
  }

  /** A letter, an embedded right-to-left letter, and a digit: the digit's run starts with R, the loop makes it L. */
  lemma ThirdExample()
    ensures var v := [Entity(0, 1, L, 0), Entity(2, 3, R, 1), Entity(4, 5, EN, 0)];
            Third7(v)[2].kind == L && W7(v, 0)[2].kind == EN
  {
    var v := [Entity(0, 1, L, 0), Entity(2, 3, R, 1), Entity(4, 5, EN, 0)];
    assert Prev(v, 2) == 1;
  }

  // ---------- The whole weak pass ----------

  function Weak(v: seq<Entity>): seq<Entity> {
    Third7(Second456(Fused123(v)))
  }

  // What the loops leave can agree with the rules where a loop does not: a mark on a digit, behind
  // boundary neutrals of another level, becomes L at once in the loops and by W7 in the rules.

  /** A mark, or one of several, behind boundary neutrals of another level, on an even level, whose
      base the rules take for a European number or a terminator: the loop writes L. */
  predicate OnDigit(v: seq<Entity>, paragraph: nat, i: nat)
    requires i < |v|
  {
    && v[i].kind == NSM && v[i].level % 2 == 0
    && (if RunStart(v, i) then Joined(v, i) && RuleKind(v, paragraph, Prev(v, i)) in {EN, ET}
        else v[i - 1].kind == NSM && OnDigit(v, paragraph, i - 1))
  }

  /** A mark where the level changes that has, by the rules, another kind than the direction of its level. */
  predicate Strays(v: seq<Entity>, paragraph: nat, i: nat)
    requires i < |v|
  {
    v[i].kind == NSM && RunStart(v, i)
    && Sor(v[i].level) != if Joined(v, i) then RuleKind(v, paragraph, Prev(v, i)) else SorAt(v, paragraph, i)
  }

  /** The first loop's kind is not that of W1 to W3, and no mark on a digit is the reason. */
  predicate FirstParts(v: seq<Entity>, paragraph: nat, i: nat)
    requires i < |v|
  {
    Leaks(v, i) || MarkBehindBN(v, i) || (Strays(v, paragraph, i) && !OnDigit(v, paragraph, i))
  }

  /** W7 makes L of an entity, given what W4 to W6 leave. */
  predicate TurnsL(w: seq<Entity>, paragraph: nat, i: nat)
    requires i < |w|
  {
    w[i].kind == EN && StrongBefore(w, paragraph, i, {L, R}) == L
  }

  /** As `SeparatorLost`, from what either side starts from; a mark on a digit hides the number as well. */
  predicate SeparatorMissed(text: seq<nat>, f: seq<Entity>, r: seq<Entity>, i: nat)
    requires i < |f| == |r|
  {
    BetweenNumbers(text, r, i) && (AtHead(f, i) || f[i - 1].kind in {BN, L} || f[i + 1].kind == BN)
  }

  predicate TerminatorMissed(f: seq<Entity>, r: seq<Entity>, i: nat)
    requires i < |f| == |r|
  {
    f[i].kind == ET && (TerminatorsBackToEN(r, i) || TerminatorsOnToEN(r, i))
    && !DigitOn(f, i) && (AtHead(f, i) || !DigitBack(f, i))
  }

  predicate TerminatorAdded(f: seq<Entity>, r: seq<Entity>, i: nat)
    requires i < |f| == |r|
  {
    f[i].kind == ET && !TerminatorsBackToEN(r, i) && !TerminatorsOnToEN(r, i)
    && (DigitOn(f, i) || (!AtHead(f, i) && DigitBack(f, i)))
  }

  /** The second loop, from the kinds f, leaves another kind than W4 to W6 from the kinds r. */
  predicate SecondParts(text: seq<nat>, f: seq<Entity>, r: seq<Entity>, i: nat)
    requires i < |f| == |r|
  {
    || SeparatorMissed(text, f, r, i) || SeparatorGained(text, f, i)
    || TerminatorMissed(f, r, i) || TerminatorAdded(f, r, i)
  }

  /** No entity has a shape on which a loop parts from its rules, and every mark on a digit is turned to L by W7. */
  predicate WeakKeepsRules(text: seq<nat>, v: seq<Entity>, paragraph: nat) {
    var f, r := Fused123(v), W1ToW3(v, paragraph);
    && (forall i | 0 <= i < |v| :: !FirstParts(v, paragraph, i))
    && (forall i | 0 <= i < |v| :: OnDigit(v, paragraph, i) ==> TurnsL(W4ToW6(text, r), paragraph, i))
    && (forall i | 0 <= i < |v| :: !SecondParts(text, f, r, i))
    && (forall i | 0 <= i < |v| :: !ThirdDeviates(Second456(f), paragraph, i))
  }

  /** What the second and third loop can still make of a kind. */
  lemma LoopsLater(f: seq<Entity>, i: nat)
    requires i < |f| && f[i].kind in {L, R, AN, BN}
    ensures Third7(Second456(f))[i].kind == f[i].kind
  {
  }

  /** What W4 to W7 can still make of a kind. */
  lemma RulesLater(text: seq<nat>, r: seq<Entity>, paragraph: nat, i: nat)
    requires i < |r|
    ensures var after := W7(W4ToW6(text, r), paragraph)[i].kind;
            && (r[i].kind in {L, R, AN, BN} ==> after == r[i].kind)
            && (r[i].kind == EN ==> after in {EN, L})
            && (after in {R, BN} ==> r[i].kind == after)
            && (after == L ==> r[i].kind in {L, EN, ET} || BetweenNumbers(text, r, i))
  {
    hide W4ToW6, BetweenNumbers, TerminatorsBackToEN, TerminatorsOnToEN, StrongBefore;
    var w := W4ToW6(text, r);
    SecondRuleIs(text, r, i);
    if BetweenNumbers(text, r, i) {
      BetweenIsNumber(text, r, i);
    }
    assert W7(w, paragraph)[i].kind == w[i].kind || (w[i].kind == EN && W7(w, paragraph)[i].kind == L);
  }

  /** Behind a separator of its run a separator is not between numbers. */
  lemma SecondSeparator(text: seq<nat>, v: seq<Entity>, paragraph: nat, i: nat)
    requires i < |v| && v[i].kind == NSM
    ensures !BetweenNumbers(text, W1ToW3(v, paragraph), i)
  {
    var r := W1ToW3(v, paragraph);
    RuleKindIs(v, paragraph, i);
    assert SameBN(v, r) by {
      forall j | 0 <= j < |v|
        ensures v[j].kind == BN <==> r[j].kind == BN
      {
        RuleKindIs(v, paragraph, j);
      }
    }
    JoinedSame(v, r, i);
  }

  // The first loop.

  lemma {:induction false} OnDigitKinds(v: seq<Entity>, paragraph: nat, i: nat)
    requires i < |v| && OnDigit(v, paragraph, i)
    ensures FusedKind(v, i) == L && RuleKind(v, paragraph, i) in {EN, ET}
  {
    hide RuleKind;
    RuleKindIs(v, paragraph, i);
    if !RunStart(v, i) {
      assert Prev(v, i) == i - 1;
      OnDigitKinds(v, paragraph, i - 1);
    }
  }

  /** Where the first loop does not part from its rules, the kinds are equal, marks on digits apart. */
  lemma {:induction false} FirstSettles(v: seq<Entity>, paragraph: nat, i: nat)
    requires i < |v| && forall j | 0 <= j <= i :: !FirstParts(v, paragraph, j)
    ensures FusedKind(v, i) == RuleKind(v, paragraph, i) || OnDigit(v, paragraph, i)
  {
    hide RuleKind, StrongInRun, AfterAL, SorAt;
    RuleKindIs(v, paragraph, i);
    assert !FirstParts(v, paragraph, i);
    if v[i].kind == NSM && !RunStart(v, i) {
      assert Prev(v, i) == i - 1;
      FirstSettles(v, paragraph, i - 1);
      if OnDigit(v, paragraph, i - 1) {
        MarkOnMark(v, paragraph, i);
      }
    }
  }

  lemma MarkOnMark(v: seq<Entity>, paragraph: nat, i: nat)
    requires i < |v| && v[i].kind == NSM && !RunStart(v, i) && OnDigit(v, paragraph, i - 1)
    ensures OnDigit(v, paragraph, i)
  {
  }

  /** A first loop that parts from W1 to W3 is still to be seen at the end. */
  lemma FirstPersists(text: seq<nat>, v: seq<Entity>, paragraph: nat, i: nat)
    requires i < |v| && FirstParts(v, paragraph, i)
    ensures Weak(v)[i].kind != W1ToW7(text, v, paragraph)[i].kind
  {
    hide W4ToW6, W7, W1ToW3, StrongInRun, AfterAL, Second456, Third7, BetweenNumbers, SorAt;
    var f, r := Fused123(v), W1ToW3(v, paragraph);
    assert f[i].kind == FusedKind(v, i);
    assert r[i].kind == RuleKind(v, paragraph, i);
    hide RuleKind;
    RuleKindIs(v, paragraph, i);
    if MarkBehindBN(v, i) {
      assert FusedKind(v, i - 1) == BN;
    }
    RulesLater(text, r, paragraph, i);
    if v[i].kind == NSM {
      SecondSeparator(text, v, paragraph, i);
    }
    LoopsLater(f, i);
  }

  // The second loop, and W7.

  /** Marks on digits apart, both sides have the same kinds; such a mark directly behind an entity
      of its run is behind another one. */
  predicate Covered(f: seq<Entity>, r: seq<Entity>) {
    && SameBN(f, r)
    && (forall k | 0 <= k < |f| :: f[k] == r[k] || (f[k].kind == L && r[k].kind in {EN, ET}))
    && (forall k | 0 < k < |f| && f[k] != r[k] && f[k - 1].level == f[k].level :: f[k - 1] != r[k - 1])
  }

  lemma FirstCovers(v: seq<Entity>, paragraph: nat)
    requires forall i | 0 <= i < |v| :: !FirstParts(v, paragraph, i)
    ensures Covered(Fused123(v), W1ToW3(v, paragraph))
    ensures forall i | 0 <= i < |v| ::
              OnDigit(v, paragraph, i) <==> Fused123(v)[i] != W1ToW3(v, paragraph)[i]
  {
    hide FusedKind, OnDigit;
    var f, r := Fused123(v), W1ToW3(v, paragraph);
    forall i | 0 <= i < |v|
      ensures f[i].kind == FusedKind(v, i) && r[i].kind == RuleKind(v, paragraph, i)
      ensures OnDigit(v, paragraph, i) ==> f[i].kind == L && r[i].kind in {EN, ET}
      ensures !OnDigit(v, paragraph, i) ==> f[i].kind == r[i].kind
    {
      FirstSettles(v, paragraph, i);
      if OnDigit(v, paragraph, i) {
        OnDigitKinds(v, paragraph, i);
      }
    }
    forall k | 0 < k < |v| && f[k] != r[k] && f[k - 1].level == f[k].level
      ensures f[k - 1] != r[k - 1]
    {
      BehindMark(v, paragraph, k);
    }
    CoveredBN(v, paragraph);
  }

  lemma BehindMark(v: seq<Entity>, paragraph: nat, k: nat)
    requires 0 < k < |v| && OnDigit(v, paragraph, k) && v[k - 1].level == v[k].level
    ensures OnDigit(v, paragraph, k - 1)
  {
  }

  lemma CoveredBN(v: seq<Entity>, paragraph: nat)
    requires forall i | 0 <= i < |v| :: FusedKind(v, i) == RuleKind(v, paragraph, i) || OnDigit(v, paragraph, i)
    ensures SameBN(Fused123(v), W1ToW3(v, paragraph))
  {
    hide FusedKind, OnDigit;
    forall i | 0 <= i < |v|
      ensures FusedKind(v, i) == BN <==> RuleKind(v, paragraph, i) == BN
    {
      if OnDigit(v, paragraph, i) {
        OnDigitKinds(v, paragraph, i);
      }
    }
  }

  lemma SeparatorsCovered(text: seq<nat>, f: seq<Entity>, r: seq<Entity>, i: nat)
    requires Covered(f, r) && i < |f| && IsSeparator(f[i].kind)
    ensures BetweenNumbers(text, r, i) && !Taken(f, i) <==> SeparatorMissed(text, f, r, i)
    ensures !BetweenNumbers(text, r, i) && Taken(f, i) <==> SeparatorGained(text, f, i)
    ensures BetweenNumbers(text, r, i) && Taken(f, i) ==> Next(r, i) == i + 1 && f[i + 1] == r[i + 1]
  {
  }

  /** Where the second loop parts from W4 to W6, one side has a neutral and the other a number. */
  lemma SecondCovered(text: seq<nat>, f: seq<Entity>, r: seq<Entity>, i: nat)
    requires Covered(f, r) && i < |f| && f[i] == r[i]
    ensures Second456(f)[i].kind == W4ToW6(text, r)[i].kind <==> !SecondParts(text, f, r, i)
    ensures SecondParts(text, f, r, i) ==>
              var code, rules := Second456(f)[i].kind, W4ToW6(text, r)[i].kind;
              (code == ON && rules in {EN, AN}) || (code in {EN, AN} && rules == ON)
  {
    assert |f| == |r|;
    hide W4ToW6, BetweenNumbers, Taken, TerminatorsBackToEN, TerminatorsOnToEN, Covered;
    hide DigitOn, DigitBack, SeparatorMissed, SeparatorGained;
    SecondRuleIs(text, r, i);
    if IsSeparator(f[i].kind) {
      SecondOnSeparators(f, i);
      SeparatorsCovered(text, f, r, i);
      if BetweenNumbers(text, r, i) {
        BetweenIsNumber(text, r, i);
      }
      if Taken(f, i) {
        TakenIsNumber(f, i);
      }
    } else {
      NoSeparatorParts(text, f, r, i);
      if f[i].kind == ET {
        SecondOnTerminators(f, i);
      }
    }
  }

  lemma NoSeparatorParts(text: seq<nat>, f: seq<Entity>, r: seq<Entity>, i: nat)
    requires i < |f| == |r| && f[i] == r[i] && !IsSeparator(f[i].kind)
    ensures !SeparatorMissed(text, f, r, i) && !SeparatorGained(text, f, i)
  {
  }

  /** Only separators and terminators part. */
  lemma PartsAreEqual(text: seq<nat>, f: seq<Entity>, r: seq<Entity>, i: nat)
    requires Covered(f, r) && i < |f| && SecondParts(text, f, r, i)
    ensures f[i] == r[i]
  {
  }

  lemma SecondPersists(text: seq<nat>, f: seq<Entity>, r: seq<Entity>, paragraph: nat, i: nat)
    requires Covered(f, r) && i < |f| && SecondParts(text, f, r, i)
    ensures Third7(Second456(f))[i].kind != W7(W4ToW6(text, r), paragraph)[i].kind
  {
    assert |f| == |r|;
    hide W4ToW6, Second456, OwnStrong, StrongBefore, SecondParts, Covered;
    PartsAreEqual(text, f, r, i);
    SecondCovered(text, f, r, i);
  }

  /** Marks that W7 turns to L apart, both sides have the same kinds before the third loop. */
  predicate Turned(s: seq<Entity>, w: seq<Entity>, paragraph: nat) {
    SameBN(s, w) && forall k | 0 <= k < |s| :: s[k] == w[k] || (s[k].kind == L && TurnsL(w, paragraph, k))
  }

  lemma {:induction false} TurnedSearch(s: seq<Entity>, w: seq<Entity>, paragraph: nat, i: nat)
    requires Turned(s, w, paragraph) && i < |s|
    ensures StrongBefore(s, paragraph, i, {L, R}) == StrongBefore(w, paragraph, i, {L, R})
  {
    JoinedSame(s, w, i);
    if Joined(s, i) {
      TurnedSearch(s, w, paragraph, Prev(s, i));
    }
  }

  lemma TurnedAlike(s: seq<Entity>, w: seq<Entity>, paragraph: nat)
    requires Turned(s, w, paragraph)
    ensures W7(s, paragraph) == W7(w, paragraph)
  {
    forall i | 0 <= i < |s|
      ensures W7(s, paragraph)[i] == W7(w, paragraph)[i]
    {
      TurnedSearch(s, w, paragraph, i);
      hide StrongBefore;
    }
  }

  lemma SecondTurns(text: seq<nat>, f: seq<Entity>, r: seq<Entity>, paragraph: nat)
    requires Covered(f, r) && forall i | 0 <= i < |f| :: !SecondParts(text, f, r, i)
    requires forall i | 0 <= i < |f| && f[i] != r[i] :: TurnsL(W4ToW6(text, r), paragraph, i)
    ensures Turned(Second456(f), W4ToW6(text, r), paragraph)
  {
    hide SecondParts, W4ToW6;
    var s, w := Second456(f), W4ToW6(text, r);
    SecondShapes(text, f, r);
    forall i | 0 <= i < |f|
      ensures s[i] == w[i] || (s[i].kind == L && TurnsL(w, paragraph, i))
      ensures s[i].kind == BN <==> w[i].kind == BN
    {
      if f[i] == r[i] {
        SecondCovered(text, f, r, i);
      }
    }
  }

  lemma SecondShapes(text: seq<nat>, f: seq<Entity>, r: seq<Entity>)
    requires SameShape(f, r)
    ensures SameShape(Second456(f), W4ToW6(text, r))
  {
  }

  /** On all levels and kinds, the three loops are W1 to W7 exactly when no entity has a shape on
      which one of them parts from its rules, and W7 turns every mark on a digit to L. */
  lemma WeakIsW1ToW7(text: seq<nat>, v: seq<Entity>, paragraph: nat)
    ensures Weak(v) == W1ToW7(text, v, paragraph) <==> WeakKeepsRules(text, v, paragraph)
  {
    hide FirstParts, OnDigit, TurnsL, SecondParts, ThirdDeviates, Covered, Turned, Fused123, W1ToW3, W4ToW6, W7;
    hide Third7, Second456;
    var f, r := Fused123(v), W1ToW3(v, paragraph);
    var s, w := Second456(f), W4ToW6(text, r);
    if Weak(v) == W1ToW7(text, v, paragraph) {
      WeakParts(text, v, paragraph);
    }
    if (forall i | 0 <= i < |v| :: !FirstParts(v, paragraph, i))
       && (forall i | 0 <= i < |v| :: OnDigit(v, paragraph, i) ==> TurnsL(w, paragraph, i))
       && (forall i | 0 <= i < |v| :: !SecondParts(text, f, r, i))
    {
      FirstCovers(v, paragraph);
      SecondTurns(text, f, r, paragraph);
      TurnedAlike(s, w, paragraph);
      ThirdIsW7(s, paragraph);
    }
  }

  /** What agreement at the end says about the first two loops. */
  lemma WeakParts(text: seq<nat>, v: seq<Entity>, paragraph: nat)
    requires Weak(v) == W1ToW7(text, v, paragraph)
    ensures var f, r := Fused123(v), W1ToW3(v, paragraph);
            && (forall i | 0 <= i < |v| :: !FirstParts(v, paragraph, i))
            && (forall i | 0 <= i < |v| :: OnDigit(v, paragraph, i) ==> TurnsL(W4ToW6(text, r), paragraph, i))
            && (forall i | 0 <= i < |v| :: !SecondParts(text, f, r, i))
  {
    hide FirstParts, OnDigit, TurnsL, SecondParts, Covered, Fused123, W1ToW3, W4ToW6, W7, Third7, Second456;
    var f, r := Fused123(v), W1ToW3(v, paragraph);
    forall i | 0 <= i < |v|
      ensures !FirstParts(v, paragraph, i)
    {
      if FirstParts(v, paragraph, i) {
        FirstPersists(text, v, paragraph, i);
      }
    }
    FirstCovers(v, paragraph);
    forall i | 0 <= i < |v|
      ensures OnDigit(v, paragraph, i) ==> TurnsL(W4ToW6(text, r), paragraph, i)
      ensures !SecondParts(text, f, r, i)
    {
      if OnDigit(v, paragraph, i) {
        DigitTurns(text, v, paragraph, i);
      }
      if SecondParts(text, f, r, i) {
        SecondPersists(text, f, r, paragraph, i);
      }
    }
  }

  lemma DigitTurns(text: seq<nat>, v: seq<Entity>, paragraph: nat, i: nat)
    requires i < |v| && OnDigit(v, paragraph, i) && Weak(v)[i].kind == W1ToW7(text, v, paragraph)[i].kind
    ensures TurnsL(W4ToW6(text, W1ToW3(v, paragraph)), paragraph, i)
  {
    hide OnDigit, W4ToW6, StrongBefore, W1ToW3;
    var r := W1ToW3(v, paragraph);
    OnDigitKinds(v, paragraph, i);
    assert r[i].kind == RuleKind(v, paragraph, i);
    LoopsLater(Fused123(v), i);
    SecondRuleIs(text, r, i);
  }

  /** Why digit marks are apart: "a1", a zero-width space inside an embedding, and a mark. The first
      loop deviates, and in the end both make the mark L. */
  lemma DigitMarkExample(text: seq<nat>)
    ensures var v := [Entity(0, 1, L, 0), Entity(1, 2, EN, 0), Entity(3, 4, BN, 1), Entity(5, 6, NSM, 0)];
            && OnDigit(v, 0, 3) && Fused123(v)[3].kind == L && W1ToW3(v, 0)[3].kind == EN
            && Weak(v)[3].kind == L && W1ToW7(text, v, 0)[3].kind == L
  {
    var v := [Entity(0, 1, L, 0), Entity(1, 2, EN, 0), Entity(3, 4, BN, 1), Entity(5, 6, NSM, 0)];
    var r := W1ToW3(v, 0);
    assert Prev(v, 1) == 0 && Prev(v, 2) == 1 && Prev(v, 3) == 1;
    assert !AfterAL(v, 1);
    RuleKindIs(v, 0, 0);
    RuleKindIs(v, 0, 1);
    RuleKindIs(v, 0, 2);
    RuleKindIs(v, 0, 3);
    assert r == [Entity(0, 1, L, 0), Entity(1, 2, EN, 0), Entity(3, 4, BN, 1), Entity(5, 6, EN, 0)];
    DigitMarkRules(text, r);
    LoopsLater(Fused123(v), 3);
  }

  lemma DigitMarkRules(text: seq<nat>, r: seq<Entity>)
    requires r == [Entity(0, 1, L, 0), Entity(1, 2, EN, 0), Entity(3, 4, BN, 1), Entity(5, 6, EN, 0)]
    ensures W7(W4ToW6(text, r), 0)[3].kind == L
  {
    hide W4ToW6;
    var w := W4ToW6(text, r);
    SecondRuleIs(text, r, 0);
    SecondRuleIs(text, r, 1);
    SecondRuleIs(text, r, 2);
    SecondRuleIs(text, r, 3);
    assert w[0].kind == L && w[1].kind == EN && w[2].kind == BN && w[3].kind == EN;
    RuleShape(text, r);
    assert Prev(w, 1) == 0 && Prev(w, 2) == 1 && Prev(w, 3) == 1;
    assert StrongBefore(w, 0, 1, {L, R}) == L;
  }

  lemma RuleShape(text: seq<nat>, r: seq<Entity>)
    ensures SameShape(r, W4ToW6(text, r))
  {
  }

  // ---------- What the weak pass leaves ----------

  predicate IsWeaklyResolved(k: Kind) {
    k.L? || k.R? || k.EN? || k.AN? || k.BN? || IsNeutral(k)
  }

  lemma {:induction false} FusedRemovesMarks(v: seq<Entity>, i: nat)
    requires i < |v|
    requires forall k | 0 <= k < |v| :: !IsExplicit(v[k].kind)
    ensures FusedKind(v, i) !in {NSM, AL} && !IsExplicit(FusedKind(v, i))
  {
    if v[i].kind == NSM && !RunStart(v, i) {
      FusedRemovesMarks(v, i - 1);
    }
  }

  /** After the weak pass no mark, Arabic letter, separator or terminator is left, and
      neither text positions nor levels have changed. */
  lemma WeakResolves(v: seq<Entity>)
    requires forall k | 0 <= k < |v| :: !IsExplicit(v[k].kind)
    ensures SameShape(v, Weak(v))
    ensures forall i | 0 <= i < |v| :: IsWeaklyResolved(Weak(v)[i].kind)
  {
    forall i | 0 <= i < |v|
      ensures IsWeaklyResolved(Weak(v)[i].kind)
    {
      FusedRemovesMarks(v, i);
    }
  }
}
