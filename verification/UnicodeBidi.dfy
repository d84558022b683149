/** The class of the source: `reorder` and its passes, each rewriting `levels` in place. */
module UnicodeBidi {
  import opened BidiTypes
  import opened BidiScan
  import opened BidiRules
  import opened BidiWeak
  import opened BidiNeutral
  import opened BidiReorder

  /** The level of the first strong character, counted from position i. */
  function ParagraphLevelFrom(text: seq<nat>, dir: nat -> Kind, i: nat): (level: nat)
    requires i <= |text|
    ensures level <= 1
    decreases |text| - i
  {
    if i == |text| then 0
    else if dir(text[i]) == AL || dir(text[i]) == R then 1
    else if dir(text[i]) == L then 0
    else ParagraphLevelFrom(text, dir, i + 1)
  }

  /** The level is 1 exactly when a right-to-left or Arabic letter stands in the text with no strong
      character before it. */
  lemma {:induction false} FirstStrongDecides(text: seq<nat>, dir: nat -> Kind, i: nat)
    requires i <= |text|
    ensures ParagraphLevelFrom(text, dir, i) == 1 <==>
            exists k | i <= k < |text| ::
              dir(text[k]) in {R, AL} && forall j | i <= j < k :: dir(text[j]) !in {L, R, AL}
    decreases |text| - i
  {
    if i < |text| && dir(text[i]) !in {L, R, AL} {
      FirstStrongDecides(text, dir, i + 1);
    }
  }

  class UnicodeBidi {
    /** The character table, `_m_char_dir`; any table will do. */
    const dir: nat -> Kind
    var levels: seq<Entity>

    constructor (dir: nat -> Kind)
      ensures this.dir == dir && levels == []
    {
      this.dir := dir;
      levels := [];
    }

    method ParagraphLevel(text: seq<nat>) returns (level: nat)
      ensures level == ParagraphLevelFrom(text, dir, 0)
      ensures level == 1 <==> exists k | 0 <= k < |text| ::
                                dir(text[k]) in {R, AL} && forall j | 0 <= j < k :: dir(text[j]) !in {L, R, AL}
      ensures level == 0 || level == 1
    {
      FirstStrongDecides(text, dir, 0);
      for i := 0 to |text|
        invariant ParagraphLevelFrom(text, dir, 0) == ParagraphLevelFrom(text, dir, i)
      {
        match dir(text[i]) {
          case AL => return 1;
          case R => return 1;
          case L => return 0;
          case _ =>
        }
      }
      return 0;
    }

    method PushEntity(begin: nat, end: nat, level: nat, kind: Kind)
      modifies this`levels
      ensures levels == old(levels) + [Entity(begin, end, kind, level)]
    {
      levels := levels + [Entity(begin, end, kind, level)];
    }

    /** Push the entity being built, if there is one. */
    method PushPending(building: bool, begin: nat, end: nat, level: nat, kind: Kind)
      modifies this`levels
      ensures levels == if building then old(levels) + [Entity(begin, end, kind, level)] else old(levels)
    {
      if building {
        PushEntity(begin, end, level, kind);
      }
    }

    /** One turn of the scan loop of `reorder`. It fails where the source takes the back of an empty stack. */
    method Step(text: seq<nat>, c: nat, p: Progress, ghost paragraph: nat) returns (ok: bool, next: Progress)
      requires c < |text| && ScannedTo(text, dir, paragraph, levels, p, c)
      modifies this`levels
      ensures ok <==> !(text[c] == PDF_CHAR && paragraph != 0 && Open(text, c) == [])
      ensures ok ==> ScannedTo(text, dir, paragraph, levels, next, c + 1)
    {
      ok, next := true, p;
      if text[c] == PDF_CHAR {
        StepPdf(text, dir, paragraph, levels, p, c);
        if p.cur.level != 0 {
          PushPending(p.building, p.begin, c, p.cur.level, p.kind);
          if p.stack == [] {
            return false, p;
          }
          var top := |p.stack| - 1;
          next := p.(stack := p.stack[..top], cur := p.stack[top], building := false);
        }
      } else if IsEmbedding(text[c]) {
        StepEmbedding(text, dir, paragraph, levels, p, c);
        PushPending(p.building, p.begin, c, p.cur.level, p.kind);
        next := p.(stack := p.stack + [p.cur], cur := Enter(p.cur, text[c]), building := false);
      } else {
        StepCharacter(text, dir, paragraph, levels, p, c);
        if !p.building || p.kind != dir(text[c]) {
          PushPending(p.building, p.begin, c, p.cur.level, p.kind);
          next := p.(building := true, begin := c, kind := dir(text[c]));
        }
      }
    }

    /** The scan of `reorder`. */
    method Scan(text: seq<nat>) returns (ok: bool)
      modifies this`levels
      ensures ok <==> ParagraphLevelFrom(text, dir, 0) == 0 || Balanced(text)
      ensures ok ==> Cuts(text, dir, ParagraphLevelFrom(text, dir, 0), levels, |text|)
    {
      hide ScannedTo, Cuts;
      levels := [];
      var paragraph := ParagraphLevel(text);
      var p := Progress([], Remember(paragraph, Override.Neutral), false, 0, L);
      ScanStarts(text, dir, paragraph, p);
      for c := 0 to |text|
        invariant paragraph == 0 || forall i | 0 <= i < c && text[i] == PDF_CHAR :: Open(text, i) != []
        invariant ScannedTo(text, dir, paragraph, levels, p, c)
      {
        ok, p := Step(text, c, p, paragraph);
        if !ok {
          return;
        }
      }
      ScanEnds(text, dir, paragraph, levels, p);
      PushPending(p.building, p.begin, |text|, p.cur.level, p.kind);
      ok := true;
    }

    method SetKind(i: nat, kind: Kind)
      requires i < |levels|
      modifies this`levels
      ensures levels == old(levels)[i := old(levels)[i].(kind := kind)]
    {
      levels := levels[i := levels[i].(kind := kind)];
    }

    /** Write one kind over a stretch of entities. */
    method FillKind(begin: nat, end: nat, kind: Kind)
      requires begin <= end <= |levels|
      modifies this`levels
      ensures |levels| == |old(levels)|
      ensures forall k | 0 <= k < |levels| ::
                levels[k] == if begin <= k < end then old(levels)[k].(kind := kind) else old(levels)[k]
    {
      for i := begin to end
        invariant |levels| == |old(levels)|
        invariant forall k | 0 <= k < |levels| ::
                    levels[k] == if begin <= k < i then old(levels)[k].(kind := kind) else old(levels)[k]
      {
        SetKind(i, kind);
      }
    }

    /** The first loop of `_m_resolve_weak_types`. */
    method ResolveMarksAndNumbers()
      modifies this`levels
      ensures levels == Fused123(old(levels))
    {
      if levels == [] {
        return;
      }
      hide FusedKind, AfterAL, Sor;
      ghost var v := levels;
      var levelOfRun := levels[0].level;
      var prev, changeEuropeanNumber := Sor(levelOfRun), false;
      FusedTurn(v, 0);
      for i := 0 to |levels|
        invariant |levels| == |v|
        invariant forall k | 0 <= k < |v| :: levels[k] == if k < i then v[k].(kind := FusedKind(v, k)) else v[k]
        invariant levelOfRun == if i == 0 then v[0].level else v[i - 1].level
        invariant prev == if i == 0 then Sor(v[0].level) else FusedKind(v, i - 1)
        invariant changeEuropeanNumber == AfterAL(v, i)
      {
        if levelOfRun != levels[i].level {
          levelOfRun := levels[i].level;
          prev := Sor(levelOfRun);
        }
        FusedTurn(v, i);
        match levels[i].kind {
          case NSM => SetKind(i, prev);
          case EN => if changeEuropeanNumber { SetKind(i, AN); }
          case AL => changeEuropeanNumber := true; SetKind(i, R);
          case L => changeEuropeanNumber := false;
          case R => changeEuropeanNumber := false;
          case _ =>
        }
        prev := levels[i].kind;
      }
    }

    /** The second loop of `_m_resolve_weak_types`; `etpos` is |levels| where the source has `end`. */
    method ResolveSeparatorsAndTerminators()
      modifies this`levels
      ensures levels == Second456(old(levels))
    {
      ghost var v := levels;
      var n := |levels|;
      var etpos: nat, head := n, true;
      for i := 0 to n
        invariant |levels| == n
        invariant etpos == n || Waiting(v, etpos, i)
        invariant forall k | 0 <= k < n ::
                    levels[k] == if k < i && k < etpos then v[k].(kind := SecondKind(v, k)) else v[k]
        invariant i < n ==> head == AtHead(v, i)
      {
        if i > 0 && etpos < n && v[i].kind != ET {
          WaitingEnds(v, etpos, i, i - 1);
        }
        etpos, head := SecondStep(i, etpos, head, v);
      }
      forall k | etpos <= k < n {
        WaitingEnds(v, etpos, n, k);
      }
      FillKind(etpos, n, ON);
    }

    /** W4 for one separator: one ES between two EN, one CS between two numbers of a kind. */
    method ResolveSeparator(i: nat, head: bool) returns (head': bool)
      requires i < |levels| && (levels[i].kind == ES || levels[i].kind == CS) && (i == 0 ==> head)
      modifies this`levels
      ensures !head'
      ensures var v := old(levels);
              levels == v[i := v[i].(kind :=
                if !head && i + 1 < |v| && v[i - 1].kind == v[i + 1].kind
                   && (v[i + 1].kind == EN || (v[i].kind == CS && v[i + 1].kind == AN)) then v[i + 1].kind else ON)]
    {
      var n := |levels|;
      var kind := levels[i].kind;
      head' := head;
      SetKind(i, ON);
      if kind == ES {
        if !head && i != n - 1 {
          if levels[i - 1].kind == EN && levels[i + 1].kind == EN {
            SetKind(i, EN);
          }
        } else {
          head' := false;
        }
      } else {
        if !head && i != n - 1 {
          var rightOne := levels[i + 1].kind;
          if levels[i - 1].kind == rightOne && (rightOne == AN || rightOne == EN) {
            SetKind(i, rightOne);
          }
        } else {
          head' := false;
        }
      }
    }

    /** The waiting terminators, decided by what ends them at i. */
    method FillWaiting(etpos: nat, i: nat, kind: Kind, ghost v: seq<Entity>)
      requires etpos < i <= |v| == |levels| && Waiting(v, etpos, i) && (i < |v| ==> v[i].kind != ET)
      requires kind == if i < |v| && v[i].kind == EN then EN else ON
      requires forall k | etpos <= k < i :: levels[k] == v[k]
      modifies this`levels
      ensures |levels| == |v|
      ensures forall k | 0 <= k < |v| ::
                levels[k] == if etpos <= k < i then v[k].(kind := SecondKind(v, k)) else old(levels)[k]
    {
      forall k | etpos <= k < i
        ensures SecondKind(v, k) == kind
      {
        WaitingEnds(v, etpos, i, k);
      }
      hide SecondKind, Waiting;
      FillKind(etpos, i, kind);
    }

    /** One turn of the second loop, from what it has written before. */
    lemma SecondTurn(v: seq<Entity>, i: nat)
      requires i < |v|
      ensures !IsSeparator(v[i].kind) && v[i].kind != ET ==> SecondKind(v, i) == v[i].kind
      ensures IsSeparator(v[i].kind) ==>
                SecondKind(v, i) ==
                if !AtHead(v, i) && i + 1 < |v| && SecondKind(v, i - 1) == v[i + 1].kind
                   && (v[i + 1].kind == EN || (v[i].kind == CS && v[i + 1].kind == AN)) then v[i + 1].kind else ON
      ensures v[i].kind == ET && !AtHead(v, i) && SecondKind(v, i - 1) == EN ==> SecondKind(v, i) == EN
      ensures AtHead(v, i + 1) == (!IsSeparator(v[i].kind) && AtHead(v, i))
      ensures AtHead(v, 0)
    {
    }

    lemma WaitingGrows(v: seq<Entity>, a: nat, i: nat)
      requires a <= i < |v| && v[i].kind == ET
      requires if a == i then i > 0 && !AtHead(v, i) ==> SecondKind(v, i - 1) != EN else Waiting(v, a, i)
      ensures Waiting(v, a, i + 1)
    {
      hide SecondKind, AtHead;
    }

    /** One turn of the second loop. */
    method SecondStep(i: nat, etpos: nat, head: bool, ghost v: seq<Entity>) returns (etpos': nat, head': bool)
      requires i < |levels| == |v|
      requires etpos == |v| || Waiting(v, etpos, i)
      requires forall k | 0 <= k < |v| ::
                 levels[k] == if k < i && k < etpos then v[k].(kind := SecondKind(v, k)) else v[k]
      requires head == AtHead(v, i)
      requires i > 0 && etpos < |v| && v[i].kind != ET ==> SecondKind(v, i - 1) == if v[i].kind == EN then EN else ON
      modifies this`levels
      ensures |levels| == |v| && (etpos' == |v| || Waiting(v, etpos', i + 1))
      ensures forall k | 0 <= k < |v| ::
                levels[k] == if k < i + 1 && k < etpos' then v[k].(kind := SecondKind(v, k)) else v[k]
      ensures i + 1 < |v| ==> head' == AtHead(v, i + 1)
    {
      var n := |levels|;
      etpos', head' := etpos, head;
      SecondTurn(v, i);
      hide SecondKind, AtHead;
      match levels[i].kind {
        case ES => head' := ResolveSeparator(i, head);
        case CS => head' := ResolveSeparator(i, head);
        case ET =>
          if !head && levels[i - 1].kind == EN {
            SetKind(i, EN);
          } else {
            if etpos == n {
              etpos' := i;
            }
            WaitingGrows(v, etpos', i);
          }
        case EN =>
          if etpos != n {
            FillWaiting(etpos, i, EN, v);
            etpos' := n;
          }
        case _ =>
      }
      if etpos' != n && levels[i].kind != ET {
        FillWaiting(etpos', i, ON, v);
        etpos' := n;
      }
    }

    /** The third loop of `_m_resolve_weak_types`. */
    method ResolveNumbersAfterL()
      modifies this`levels
      ensures levels == Third7(old(levels))
    {
      if levels == [] {
        return;
      }
      ghost var v := levels;
      var levelOfRun := levels[0].level;
      var changeEuropeanNumber := Sor(levelOfRun) == L;
      for i := 0 to |levels|
        invariant |levels| == |v|
        invariant forall k | 0 <= k < |v| :: levels[k] == if k < i then v[k].(kind := ThirdKind(v, k)) else v[k]
        invariant levelOfRun == if i == 0 then v[0].level else v[i - 1].level
        invariant changeEuropeanNumber ==
                  ((if i == 0 then Sor(v[0].level)
                    else if v[i - 1].kind == L || v[i - 1].kind == R then v[i - 1].kind
                    else OwnStrong(v, i - 1)) == L)
      {
        assert OwnStrong(v, i) == if RunStart(v, i) then Sor(v[i].level)
                                  else if v[i - 1].kind == L || v[i - 1].kind == R then v[i - 1].kind
                                  else OwnStrong(v, i - 1);
        if levelOfRun != levels[i].level {
          levelOfRun := levels[i].level;
          changeEuropeanNumber := Sor(levelOfRun) == L;
        }
        match levels[i].kind {
          case EN => if changeEuropeanNumber { SetKind(i, L); }
          case L => changeEuropeanNumber := true;
          case R => changeEuropeanNumber := false;
          case _ =>
        }
      }
    }

    method ResolveWeakTypes()
      modifies this`levels
      ensures levels == Weak(old(levels))
    {
      ResolveMarksAndNumbers();
      ResolveSeparatorsAndTerminators();
      ResolveNumbersAfterL();
    }

    /** `_m_eor`. */
    method Eor(i: nat) returns (kind: Kind)
      requires i < |levels|
      ensures kind == EorFrom(levels, i, levels[i].level)
    {
      var level := levels[i].level;
      for k := i to |levels|
        invariant EorFrom(levels, i, level) == EorFrom(levels, k, level)
      {
        if levels[k].level != level {
          return levels[k].kind;
        }
      }
      kind := Sor(levels[0].level);
    }

    method ResolveNeutralTypes()
      modifies this`levels
      ensures levels == BidiNeutral.Neutral(old(levels))
    {
      if levels == [] {
        return;
      }
      ghost var v := levels;
      var n := |levels|;
      var levelOfRun, headOfRun, beginNeutral: nat, left := levels[0].level, true, n, L;
      for i := 0 to n
        invariant |levels| == n
        invariant beginNeutral == n || (beginNeutral < i && left == BlockLeft(v, beginNeutral))
        invariant forall k | beginNeutral <= k < i :: IsNeutral(v[k].kind)
        invariant 0 < beginNeutral < n ==> !IsNeutral(v[beginNeutral - 1].kind)
        invariant beginNeutral == n && i > 0 ==> !IsNeutral(v[i - 1].kind)
        invariant forall k | 0 <= k < n ::
                    levels[k] == if k < i && k < beginNeutral then v[k].(kind := NeutralKind(v, k)) else v[k]
        invariant levelOfRun == if i == 0 then v[0].level else v[i - 1].level
        invariant headOfRun <==> i == 0
      {
        if levelOfRun != levels[i].level {
          levelOfRun := levels[i].level;
          headOfRun := true;
        }
        if IsNeutral(levels[i].kind) {
          if beginNeutral == n {
            beginNeutral := i;
            left := Direction(if headOfRun then Sor(levelOfRun) else levels[i - 1].kind);
          }
        } else if beginNeutral != n {
          CloseBlock(beginNeutral, i, left, v);
          beginNeutral := n;
        }
        headOfRun := false;
      }
      if beginNeutral != n {
        var eor := Sor(levels[0].level);
        var target := if left == eor then left else Sor(levels[beginNeutral].level);
        forall k | beginNeutral <= k < n
          ensures NeutralKind(v, k) == target
        {
          BlockStartIs(v, beginNeutral, k);
          BlockEndIs(v, k, n);
        }
        FillKind(beginNeutral, n, target);
      }
    }

    /** The branch of the neutral loop that a character after a block of neutrals takes. */
    method CloseBlock(begin: nat, end: nat, left: Kind, ghost v: seq<Entity>)
      requires begin < end < |levels| == |v|
      requires left == BlockLeft(v, begin)
      requires forall k | begin <= k < end :: IsNeutral(v[k].kind)
      requires begin > 0 ==> !IsNeutral(v[begin - 1].kind)
      requires !IsNeutral(v[end].kind)
      requires forall k | 0 <= k < |v| :: levels[k] == if k < begin then v[k].(kind := NeutralKind(v, k)) else v[k]
      modifies this`levels
      ensures |levels| == |v|
      ensures forall k | 0 <= k < |v| :: levels[k] == if k <= end then v[k].(kind := NeutralKind(v, k)) else v[k]
    {
      var right;
      if levels[end].level != levels[begin].level {
        right := Eor(begin);
        EorSame(levels, v, begin, v[begin].level);
      } else {
        right := levels[end].kind;
      }
      right := Direction(right);
      var target := if left == right then left else Sor(levels[begin].level);
      forall k | begin <= k < end
        ensures NeutralKind(v, k) == target
      {
        BlockStartIs(v, begin, k);
        BlockEndIs(v, k, end);
      }
      FillKind(begin, end, target);
    }

    method ResolveImplicitLevels()
      modifies this`levels
      ensures levels == Implicit(old(levels))
    {
      ghost var v := levels;
      for i := 0 to |levels|
        invariant |levels| == |v|
        invariant forall k | 0 <= k < |v| :: levels[k] == if k < i then v[k].(level := ImplicitLevel(v[k])) else v[k]
      {
        var e := levels[i];
        match e.kind {
          case L => e := e.(level := e.level + e.level % 2);
          case R =>
            if e.level % 2 == 0 {
              e := e.(level := e.level + 1);
            }
          case EN => e := e.(level := e.level + 2 - e.level % 2);
          case AN => e := e.(level := e.level + 2 - e.level % 2);
          case _ =>
        }
        levels := levels[i := e];
      }
    }

    method HighestLevel() returns (highest: nat)
      ensures highest == Highest(Levels(levels))
    {
      highest := 0;
      var fixed := Levels(levels);
      for i := |levels| downto 0
        invariant highest == Highest(fixed[i..])
      {
        assert fixed[i..][1..] == fixed[i + 1..];
        if levels[i].level > highest {
          highest := levels[i].level;
        }
      }
      assert fixed[0..] == fixed;
    }

    /** Swap a stretch of the line end for end. */
    static method ReverseRange(line: array<Entity>, begin: nat, end: nat)
      requires begin < end <= line.Length
      modifies line
      ensures forall j | begin <= j < end :: line[..][j] == old(line[..])[begin + end - 1 - j]
      ensures forall j | 0 <= j < line.Length && !(begin <= j < end) :: line[..][j] == old(line[..])[j]
    {
      var p, plast := begin, end - 1;
      while p < plast
        invariant begin <= p <= plast + 1 <= end && p + plast == begin + end - 1
        invariant forall j | 0 <= j < line.Length ::
                    line[j] == if begin <= j < p || plast < j < end then old(line[begin + end - 1 - j])
                    else old(line[j])
      {
        line[p], line[plast] := line[plast], line[p];
        p, plast := p + 1, plast - 1;
      }
    }

    method FindRunEnd(i: nat, level: nat) returns (end: nat)
      requires i < |levels| && levels[i].level >= level
      ensures i < end <= |levels| && (end < |levels| ==> levels[end].level < level)
      ensures forall j | i <= j < end :: levels[j].level >= level
    {
      end := i + 1;
      while end != |levels| && levels[end].level >= level
        invariant i < end <= |levels|
        invariant forall j | i <= j < end :: levels[j].level >= level
      {
        end := end + 1;
      }
    }

    /** One turn of the level loop: reverse every run that reaches the level. */
    method ReverseLevel(line: array<Entity>, level: nat)
      requires line.Length == |levels|
      modifies line
      ensures line[..] == ReverseRuns(Levels(levels), old(line[..]), level)
    {
      hide Mirror, ReverseRuns, Reversed;
      ghost var s := line[..];
      var fixed := Levels(levels);
      var i := 0;
      ReversedAll(fixed, s, s, level);
      while i < |levels|
        invariant i <= |levels|
        invariant i > 0 && i < |levels| ==> fixed[i - 1] < level || fixed[i] < level
        invariant Reversed(fixed, s, line[..], level, i)
      {
        ghost var r := line[..];
        if levels[i].level >= level {
          var end := FindRunEnd(i, level);
          assert forall j | i <= j < end :: fixed[j] >= level;
          ReverseRange(line, i, end);
          ReversedRun(fixed, s, r, line[..], level, i, end);
          i := end - 1;
        } else {
          ReversedOutside(fixed, s, r, level, i);
        }
        i := i + 1;
      }
      ReversedAll(fixed, s, line[..], level);
    }

    method ReorderResolvedLevels() returns (reordered: seq<Entity>)
      ensures reordered == L2(levels)
    {
      var line := new Entity[|levels|](i requires 0 <= i < |levels| reads this => levels[i]);
      assert line[..] == levels;
      var highest := HighestLevel();
      ghost var fixed := Levels(levels);
      var level := highest;
      while level >= 1
        invariant Passes(fixed, line[..], level, 1) == Passes(fixed, levels, highest, 1)
      {
        ReverseLevel(line, level);
        level := level - 1;
      }
      PassesAreL2(levels);
      return line[..];
    }

    /** `reorder`. When the text has no PDF that takes the back of an empty stack, the result is
        rule L2 on the resolved levels of the one cut of the text. */
    method Reorder(text: seq<nat>) returns (ok: bool, reordered: seq<Entity>)
      modifies this`levels
      ensures ok <==> ParagraphLevelFrom(text, dir, 0) == 0 || Balanced(text)
      ensures ok ==> exists es ::
                Cuts(text, dir, ParagraphLevelFrom(text, dir, 0), es, |text|) && reordered == L2(Resolve(es))
    {
      ok := Scan(text);
      if !ok {
        return false, [];
      }
      ghost var es := levels;
      ResolveWeakTypes();
      ResolveNeutralTypes();
      ResolveImplicitLevels();
      reordered := ReorderResolvedLevels();
      assert Cuts(text, dir, ParagraphLevelFrom(text, dir, 0), es, |text|) && reordered == L2(Resolve(es));
    }
  }

  lemma CutOnce(text: seq<nat>, dir: nat -> Kind, paragraph: nat, es: seq<Entity>, i: nat) returns (k: nat)
    requires Cuts(text, dir, paragraph, es, |text|)
    requires i < |text| && IsPlain(text[i])
    ensures k < |es| && forall j | 0 <= j < |es| :: Holds(es[j], i) <==> j == k
  {
    k := CutsCover(text, dir, paragraph, es, |text|, i);
    forall j | 0 <= j < |es| && j != k
      ensures !Holds(es[j], i)
    {
      if j < k {
        CutsOrdered(text, dir, paragraph, es, |text|, j, k);
      } else {
        CutsOrdered(text, dir, paragraph, es, |text|, k, j);
      }
    }
  }

  lemma NoExplicitKinds(text: seq<nat>, dir: nat -> Kind, paragraph: nat, es: seq<Entity>)
    requires Cuts(text, dir, paragraph, es, |text|)
    requires forall c: nat :: IsPlain(c) ==> !IsExplicit(dir(c))
    ensures forall k | 0 <= k < |es| :: !IsExplicit(es[k].kind)
  {
    forall k | 0 <= k < |es|
      ensures !IsExplicit(es[k].kind)
    {
      assert Uniform(text, dir, paragraph, es[k]);
      assert Inside(text, dir, paragraph, es[k].kind, es[k].level, es[k].begin);
    }
  }

  /** Every character of the text lies in exactly one of the entities shown. */
  lemma EveryCharacterShownOnce(text: seq<nat>, dir: nat -> Kind, paragraph: nat, es: seq<Entity>, i: nat)
    returns (at: nat)
    requires Cuts(text, dir, paragraph, es, |text|)
    requires forall c: nat :: IsPlain(c) ==> !IsExplicit(dir(c))
    requires i < |text| && IsPlain(text[i])
    ensures at < |L2(Resolve(es))| == |es|
    ensures forall m | 0 <= m < |es| :: Holds(L2(Resolve(es))[m], i) <==> m == at
  {
    var k := CutOnce(text, dir, paragraph, es, i);
    var r := Resolve(es);
    NoExplicitKinds(text, dir, paragraph, es);
    PassesResolve(es);
    assert forall j | 0 <= j < |r| :: Holds(r[j], i) <==> j == k;
    at := ShownOnce(r, k, i);
  }

  lemma ShownOnce(r: seq<Entity>, k: nat, i: nat) returns (at: nat)
    requires k < |r| && forall j | 0 <= j < |r| :: Holds(r[j], i) <==> j == k
    ensures at < |L2(r)| == |r|
    ensures forall m | 0 <= m < |r| :: Holds(L2(r)[m], i) <==> m == at
  {
    var levels := Levels(r);
    var order := VisualOrder(levels);
    L2Permutes(r);
    at := FinalPosition(levels, k, Highest(levels));
    PassesPlace<nat>(levels, Identity(|r|), k, Highest(levels));
    assert order[at] == k;
    forall m | 0 <= m < |r|
      ensures Holds(L2(r)[m], i) <==> m == at
    {
      assert L2(r)[m] == r[order[m]];
    }
  }

  // ---------- The line that UAX #9 asks for ----------

  /** The rules from W1 to L2 on the entities of a text. */
  function Standard(text: seq<nat>, es: seq<Entity>, paragraph: nat): seq<Entity> {
    L2(L1(es, Implicit(N1N2(W1ToW7(text, es, paragraph), paragraph)), paragraph))
  }

  lemma NeutralStaysFused(es: seq<Entity>, i: nat)
    requires i < |es| && IsNeutral(es[i].kind)
    ensures Weak(es)[i] == es[i]
  {
    assert FusedKind(es, i) == es[i].kind;
  }

  /** Separators and trailing white space for which L1 has something to do: they are not on the
      paragraph's level, or leave it because the neutral pass turns them against its direction. */
  predicate L1Missed(es: seq<Entity>, paragraph: nat, i: nat)
    requires i < |es|
  {
    var w := Weak(es);
    && Trailing(es, i) && IsNeutral(w[i].kind)
    && es[i].level + (if LoopTurns(w, i) then 1 else 0) != paragraph
  }

  /** What the passes leave keeps to rule L1, for which the source has no pass, exactly when no entity is missed. */
  lemma L1Exactly(es: seq<Entity>, paragraph: nat)
    requires forall k | 0 <= k < |es| :: !IsExplicit(es[k].kind)
    ensures |Resolve(es)| == |es|
    ensures L1(es, Resolve(es), paragraph) == Resolve(es) <==> forall i | 0 <= i < |es| :: !L1Missed(es, paragraph, i)
  {
    var w, r := Weak(es), Resolve(es);
    WeakResolves(es);
    forall i | 0 <= i < |es|
      ensures L1(es, r, paragraph)[i] == r[i] <==> !L1Missed(es, paragraph, i)
    {
      if Trailing(es, i) {
        NeutralStaysFused(es, i);
        NeutralLevel(w, i);
      }
    }
  }

  /** The line shown is the standard's when no pass deviates from its rules and L1 has nothing to change. */
  lemma ShownAsStandard(text: seq<nat>, es: seq<Entity>, paragraph: nat)
    requires forall k | 0 <= k < |es| :: !IsExplicit(es[k].kind)
    requires WeakKeepsRules(text, es, paragraph)
    requires forall i | 0 <= i < |es| :: !NeutralDeviates(Weak(es), paragraph, i)
    requires forall i | 0 <= i < |es| :: !L1Missed(es, paragraph, i)
    ensures L2(Resolve(es)) == Standard(text, es, paragraph)
  {
    hide WeakKeepsRules, NeutralDeviates, L2, Weak, W1ToW7, Trailing, L1Missed;
    WeakIsW1ToW7(text, es, paragraph);
    WeakResolves(es);
    NeutralPassIsN1N2(Weak(es), paragraph);
    L1Exactly(es, paragraph);
  }

  /** A tab between two right-to-left letters of a left-to-right paragraph: L1 puts it back to
      level 0, the source leaves it on level 1. */
  lemma L1MissedExample()
    ensures var v := [Entity(0, 1, R, 0), Entity(1, 2, S, 0), Entity(2, 3, R, 0)];
            |Resolve(v)| == 3 && Resolve(v)[1].level == 1 && L1(v, Resolve(v), 0)[1].level == 0
  {
    var v := [Entity(0, 1, R, 0), Entity(1, 2, S, 0), Entity(2, 3, R, 0)];
    assert Weak(v) == v;
    assert BlockStart(v, 1) == 1 && BlockEnd(v, 1) == 2;
    assert NeutralKind(v, 1) == R;
  }

  lemma {:induction false} PlainLevel(text: seq<nat>, paragraph: nat, i: nat)
    requires i <= |text| && forall k | 0 <= k < |text| :: IsPlain(text[k])
    ensures Open(text, i) == [] && LevelAt(text, paragraph, i) == paragraph
  {
    if i > 0 {
      PlainLevel(text, paragraph, i - 1);
    }
  }

  /** A text without embedding characters is cut into one level run, at the paragraph's level. */
  lemma PlainTextIsOneRun(text: seq<nat>, dir: nat -> Kind, paragraph: nat, es: seq<Entity>)
    requires Cuts(text, dir, paragraph, es, |text|) && forall k | 0 <= k < |text| :: IsPlain(text[k])
    ensures forall k | 0 <= k < |es| :: es[k].level == paragraph && es[k].kind == dir(text[es[k].begin])
    ensures OneLevel(es)
  {
    forall k | 0 <= k < |es|
      ensures es[k].level == paragraph && es[k].begin < |text| && es[k].kind == dir(text[es[k].begin])
    {
      assert Uniform(text, dir, paragraph, es[k]);
      assert Inside(text, dir, paragraph, es[k].kind, es[k].level, es[k].begin);
      PlainLevel(text, paragraph, es[k].begin);
    }
  }

  /** A text without embedding characters, boundary neutrals and separators of segments or paragraphs
      is shown as the standard asks, unless the second loop meets one of its four shapes. */
  lemma PlainTextShown(text: seq<nat>, dir: nat -> Kind, paragraph: nat, es: seq<Entity>)
    requires Cuts(text, dir, paragraph, es, |text|)
    requires forall c: nat :: IsPlain(c) ==> !IsExplicit(dir(c))
    requires forall k | 0 <= k < |text| :: IsPlain(text[k]) && dir(text[k]) !in {BN, S, B}
    requires forall i | 0 <= i < |es| :: !SecondDeviates(text, Fused123(es), i)
    ensures L2(Resolve(es)) == Standard(text, es, paragraph)
  {
    NoExplicitKinds(text, dir, paragraph, es);
    PlainTextIsOneRun(text, dir, paragraph, es);
    hide Cuts, SecondDeviates;
    PlainKeepsWeak(text, es, paragraph);
    PlainKeepsNeutral(es, paragraph);
    forall i | 0 <= i < |es|
      ensures !L1Missed(es, paragraph, i)
    {
      if Trailing(es, i) {
        PlainTrailing(es, paragraph, i);
      }
    }
    ShownAsStandard(text, es, paragraph);
  }

  predicate PlainRun(es: seq<Entity>, paragraph: nat) {
    && OneLevel(es)
    && forall k | 0 <= k < |es| :: es[k].level == paragraph && es[k].kind !in {BN, S, B} && !IsExplicit(es[k].kind)
  }

  lemma PlainKeepsWeak(text: seq<nat>, es: seq<Entity>, paragraph: nat)
    requires PlainRun(es, paragraph)
    requires forall i | 0 <= i < |es| :: !SecondDeviates(text, Fused123(es), i)
    ensures WeakKeepsRules(text, es, paragraph)
  {
    hide SecondDeviates;
    FusedOnOneRun(es, paragraph);
    FusedIsW1W2W3(es, paragraph);
    assert forall i | 0 <= i < |es| :: !MarkBehindBN(es, i);
    SecondIsW4W5W6(text, Fused123(es));
    ThirdOnOneRun(Second456(Fused123(es)), paragraph);
    ThirdIsW7(Second456(Fused123(es)), paragraph);
    WeakIsW1ToW7(text, es, paragraph);
  }

  lemma {:induction false} NoBNComes(es: seq<Entity>, i: nat)
    requires i < |es| && forall k | 0 <= k < |es| :: es[k].kind != BN
    ensures FusedKind(es, i) != BN
  {
    if es[i].kind == NSM && !RunStart(es, i) {
      NoBNComes(es, i - 1);
    }
  }

  lemma PlainKeepsNeutral(es: seq<Entity>, paragraph: nat)
    requires PlainRun(es, paragraph)
    ensures forall i | 0 <= i < |es| :: !NeutralDeviates(Weak(es), paragraph, i)
  {
    WeakResolves(es);
    var w := Weak(es);
    forall k | 0 <= k < |w|
      ensures w[k].kind != BN
    {
      NoBNComes(es, k);
    }
    forall i | 0 <= i < |w|
      ensures !NeutralDeviates(w, paragraph, i)
    {
      if IsNeutral(w[i].kind) {
        PlainBlock(w, paragraph, i);
      }
    }
  }

  lemma PlainBlock(w: seq<Entity>, paragraph: nat, i: nat)
    requires i < |w| && IsNeutral(w[i].kind) && AllWeaklyResolved(w)
    requires forall k | 0 <= k < |w| :: w[k].level == paragraph && w[k].kind != BN
    ensures !NeutralDeviates(w, paragraph, i)
  {
    hide NeutralDeviates, NeutralKind, N1N2Kind;
    NeutralIsN1N2(w, paragraph, i);
    NeutralInsideRun(w, paragraph, i);
  }

  lemma {:induction false} TrailingIsWhite(es: seq<Entity>, paragraph: nat, i: nat)
    requires PlainRun(es, paragraph) && i < |es| && Trailing(es, i)
    ensures forall k | i <= k < |es| :: es[k].kind == WS
    decreases |es| - i
  {
    if i + 1 < |es| {
      assert Next(es, i) == i + 1;
      TrailingIsWhite(es, paragraph, i + 1);
    }
  }

  /** Trailing white space is on the paragraph's level without L1. */
  lemma PlainTrailing(es: seq<Entity>, paragraph: nat, i: nat)
    requires PlainRun(es, paragraph) && i < |es| && Trailing(es, i)
    ensures !L1Missed(es, paragraph, i)
  {
    var w := Weak(es);
    TrailingIsWhite(es, paragraph, i);
    WeakResolves(es);
    forall k | i <= k < |w|
      ensures w[k].kind == WS && w[k].level == paragraph
    {
      NeutralStaysFused(es, k);
    }
    EndOfText(w, i);
    WrittenAtEnd(w, paragraph, BlockStart(w, i));
  }

  lemma EndOfText(w: seq<Entity>, i: nat)
    requires i < |w| && forall k | i <= k < |w| :: IsNeutral(w[k].kind)
    ensures BlockEnd(w, i) == |w|
  {
    BlockEndIs(w, i, |w|);
  }

  lemma WrittenAtEnd(w: seq<Entity>, paragraph: nat, s: nat)
    requires s < |w| && forall k | 0 <= k < |w| :: w[k].level == paragraph
    ensures Written(w, s, |w|) == Sor(paragraph)
  {
  }
}
