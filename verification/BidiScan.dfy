/** The first stage of the reordering: explicit embeddings (sections 3.3.2 and 3.3.3 of
    UAX #9) and the cutting of a text into entities. */
module BidiScan {
  import opened BidiTypes

  const LRE_CHAR: nat := 0x202A
  const RLE_CHAR: nat := 0x202B
  const PDF_CHAR: nat := 0x202C
  const LRO_CHAR: nat := 0x202D
  const RLO_CHAR: nat := 0x202E

  predicate IsEmbedding(c: nat) {
    LRE_CHAR <= c <= RLO_CHAR && c != PDF_CHAR
  }

  predicate IsPlain(c: nat) {
    c != PDF_CHAR && !IsEmbedding(c)
  }

  // ---------- Levels, from the embeddings that are still open ----------

  /** The level inside an embedding that starts at the given level, as the source computes it. */
  function Raise(level: nat, c: nat): nat
    requires IsEmbedding(c)
  {
    if c == LRE_CHAR || c == LRO_CHAR then level + (2 - level % 2)
    else if c == RLE_CHAR then level + (level % 2 + 1)
    else level % 2 + 1
  }

  /** The embeddings of text[..i] that no PDF has closed, outermost first. */
  function Open(text: seq<nat>, i: nat): (open: seq<nat>)
    requires i <= |text|
    ensures forall k | 0 <= k < |open| :: IsEmbedding(open[k])
  {
    if i == 0 then []
    else
      var before := Open(text, i - 1);
      if text[i - 1] == PDF_CHAR then (if before == [] then [] else before[..|before| - 1])
      else if IsEmbedding(text[i - 1]) then before + [text[i - 1]]
      else before
  }

  function LevelOf(paragraph: nat, open: seq<nat>): nat
    requires forall k | 0 <= k < |open| :: IsEmbedding(open[k])
  {
    if open == [] then paragraph
    else Raise(LevelOf(paragraph, open[..|open| - 1]), open[|open| - 1])
  }

  function LevelAt(text: seq<nat>, paragraph: nat, i: nat): nat
    requires i <= |text|
  {
    LevelOf(paragraph, Open(text, i))
  }

  /** No PDF stands where no embedding is open. */
  predicate Balanced(text: seq<nat>) {
    forall i | 0 <= i < |text| && text[i] == PDF_CHAR :: Open(text, i) != []
  }

  /** The level is zero exactly when it is the paragraph's own and nothing is open. */
  lemma {:induction false} ZeroLevel(paragraph: nat, open: seq<nat>)
    requires forall k | 0 <= k < |open| :: IsEmbedding(open[k])
    ensures LevelOf(paragraph, open) == 0 <==> open == [] && paragraph == 0
  {
    if open != [] {
      ZeroLevel(paragraph, open[..|open| - 1]);
    }
  }

  /** Levels grow by at most two for each character, so 32-bit levels cannot wrap on texts of
      fewer than 2^31 - 2 characters. */
  lemma {:induction false} LevelBound(text: seq<nat>, paragraph: nat, i: nat)
    requires i <= |text|
    ensures forall k | 0 <= k <= |Open(text, i)| :: LevelOf(paragraph, Open(text, i)[..k]) <= paragraph + 2 * k
    ensures |Open(text, i)| <= i && LevelAt(text, paragraph, i) <= paragraph + 2 * i
  {
    hide LevelOf;
    var open := Open(text, i);
    if i > 0 {
      LevelBound(text, paragraph, i - 1);
    }
    assert open[..|open|] == open;
    forall k | 0 <= k <= |open|
      ensures LevelOf(paragraph, open[..k]) <= paragraph + 2 * k
    {
      PrefixBound(paragraph, open, k);
    }
  }

  lemma {:induction false} PrefixBound(paragraph: nat, open: seq<nat>, k: nat)
    requires forall j | 0 <= j < |open| :: IsEmbedding(open[j])
    requires k <= |open|
    ensures LevelOf(paragraph, open[..k]) <= paragraph + 2 * k
  {
    if k > 0 {
      assert open[..k][..k - 1] == open[..k - 1];
      PrefixBound(paragraph, open, k - 1);
    }
  }

  /** The least level above `level` with the parity of the embedding's direction (rules X2 to X5). */
  function LeastAbove(level: nat, odd: bool): (r: nat)
    ensures r > level && (r % 2 == 1 <==> odd) && forall k | level < k < r :: !(k % 2 == 1 <==> odd)
  {
    if (level % 2 == 1) == odd then level + 2 else level + 1
  }

  /** The level inside an embedding by rules X2 to X5: an embedding beyond the greatest depth is
      ignored. The depth is 61 up to Unicode 6.2 and 125 since. */
  function RuleLevel(level: nat, odd: bool, deepest: nat): nat {
    if LeastAbove(level, odd) <= deepest then LeastAbove(level, odd) else level
  }

  /** Embeddings, U+202A to U+202E but for the PDF U+202C, raise the level as the rules say exactly up to
      the greatest depth, and except RLO away from level zero. U+202B and U+202E embed to the right. */
  lemma RaiseIsLeastAbove(level: nat, c: nat, deepest: nat)
    requires 0x202A <= c <= 0x202E && c != 0x202C
    ensures var odd := c == 0x202B || c == 0x202E;
            && IsEmbedding(c)
            && (Raise(level, c) == RuleLevel(level, odd, deepest)
                <==> LeastAbove(level, odd) <= deepest && (c != 0x202E || level == 0))
  {
  }

  lemma ControlsAre(c: nat)
    ensures IsEmbedding(c) <==> c == 0x202A || c == 0x202B || c == 0x202D || c == 0x202E
    ensures IsPlain(c) <==> !IsEmbedding(c) && c != 0x202C
  {
  }

  /** How many embeddings there are less how many PDFs. */
  function Depth(text: seq<nat>, i: nat): int
    requires i <= |text|
  {
    if i == 0 then 0
    else Depth(text, i - 1) + if text[i - 1] == 0x202C then -1 else if IsEmbedding(text[i - 1]) then 1 else 0
  }

  /** As long as every PDF closes an embedding, as many are open as were opened and not closed. */
  lemma {:induction false} OpenCounts(text: seq<nat>, i: nat)
    requires i <= |text| && forall k | 0 <= k < i && text[k] == 0x202C :: Open(text, k) != []
    ensures |Open(text, i)| == Depth(text, i)
  {
    if i > 0 {
      OpenCounts(text, i - 1);
    }
  }

  /** Between i and j nothing that was open at i is closed, and everything opened since is. */
  predicate Nested(text: seq<nat>, i: nat, j: nat)
    requires i <= j <= |text|
  {
    Depth(text, j) == Depth(text, i) && forall k | i <= k <= j :: Depth(text, k) >= Depth(text, i)
  }

  lemma {:induction false} InnerKeepsOuter(text: seq<nat>, i: nat, j: nat)
    requires i <= j <= |text| && forall k | i <= k <= j :: Depth(text, k) >= Depth(text, i)
    ensures |Open(text, j)| == |Open(text, i)| + (Depth(text, j) - Depth(text, i))
    ensures Open(text, i) <= Open(text, j)
    decreases j - i
  {
    if i < j {
      InnerKeepsOuter(text, i, j - 1);
    }
  }

  /** What is opened and closed again leaves the level as it was. */
  lemma NestedKeepsLevel(text: seq<nat>, paragraph: nat, i: nat, j: nat)
    requires i <= j <= |text| && Nested(text, i, j)
    ensures Open(text, j) == Open(text, i) && LevelAt(text, paragraph, j) == LevelAt(text, paragraph, i)
  {
    InnerKeepsOuter(text, i, j);
  }

  /** An override to the right inside right-to-left text gets an even level. */
  lemma RloExample()
    ensures Raise(1, RLO_CHAR) == 2 && RuleLevel(1, true, 61) == 3
  {
  }

  // ---------- Entities ----------

  /** A control at i that changes the level; the others are PDFs at level zero, which the scan skips. */
  predicate Breaks(text: seq<nat>, paragraph: nat, i: nat)
    requires i < |text|
  {
    IsEmbedding(text[i]) || (text[i] == PDF_CHAR && LevelAt(text, paragraph, i) != 0)
  }

  /** Position i can lie in an entity of this kind and level. */
  ghost predicate Inside(text: seq<nat>, dir: nat -> Kind, paragraph: nat, kind: Kind, level: nat, i: nat)
    requires i < |text|
  {
    && LevelAt(text, paragraph, i) == level
    && !Breaks(text, paragraph, i)
    && (IsPlain(text[i]) ==> dir(text[i]) == kind)
  }

  /** One entity: it starts with a character, and its characters share its kind and level. */
  ghost predicate Uniform(text: seq<nat>, dir: nat -> Kind, paragraph: nat, e: Entity) {
    && e.begin < e.end <= |text|
    && IsPlain(text[e.begin])
    && forall i | e.begin <= i < e.end :: Inside(text, dir, paragraph, e.kind, e.level, i)
  }

  predicate NoCharacters(text: seq<nat>, a: nat, b: nat)
    requires b <= |text|
  {
    forall i | a <= i < b :: !IsPlain(text[i])
  }

  /** Entity k comes after the one before it, and is cut off from it for a reason. */
  predicate FollowsOn(text: seq<nat>, paragraph: nat, es: seq<Entity>, k: nat)
    requires 0 < k < |es| && es[k].begin <= |text|
  {
    var before := es[k - 1];
    && before.end <= es[k].begin
    && NoCharacters(text, before.end, es[k].begin)
    && ((before.end < |text| && Breaks(text, paragraph, before.end))
        || (before.end == es[k].begin && before.kind != es[k].kind))
  }

  /** The entities cut text[..n]: in order, uniform, as long as possible, with only controls between them. */
  ghost predicate Cuts(text: seq<nat>, dir: nat -> Kind, paragraph: nat, es: seq<Entity>, n: nat)
    requires n <= |text|
  {
    && (forall k | 0 <= k < |es| :: Uniform(text, dir, paragraph, es[k]) && es[k].end <= n)
    && (forall k | 0 < k < |es| :: FollowsOn(text, paragraph, es, k))
    && NoCharacters(text, 0, if es == [] then n else es[0].begin)
    && (es != [] ==>
          var e := es[|es| - 1];
          NoCharacters(text, e.end, n) && (e.end < n ==> Breaks(text, paragraph, e.end)))
  }

  /** Two entities of a cut do not overlap, and the earlier one comes first in the text. */
  lemma {:induction false} CutsOrdered(text: seq<nat>, dir: nat -> Kind, paragraph: nat, es: seq<Entity>, n: nat,
                                       j: nat, k: nat)
    requires n <= |text| && Cuts(text, dir, paragraph, es, n)
    requires j < k < |es|
    ensures es[j].end <= es[k].begin
    decreases k
  {
    assert FollowsOn(text, paragraph, es, k);
    assert Uniform(text, dir, paragraph, es[k - 1]);
    if j < k - 1 {
      CutsOrdered(text, dir, paragraph, es, n, j, k - 1);
    }
  }

  /** Every character lies in an entity. */
  lemma {:induction false} CutsCover(text: seq<nat>, dir: nat -> Kind, paragraph: nat, es: seq<Entity>, n: nat, i: nat)
    returns (k: nat)
    requires n <= |text| && Cuts(text, dir, paragraph, es, n)
    requires i < n && IsPlain(text[i])
    ensures k < |es| && es[k].begin <= i < es[k].end
  {
    k := |es| - 1;
    while i < es[k].begin
      invariant 0 <= k < |es| && i < es[k].end
    {
      assert k > 0 ==> FollowsOn(text, paragraph, es, k);
      k := k - 1;
    }
  }

  /** A control that ends an entity: an embedding, or a PDF other than in a left-to-right paragraph with
      nothing open. */
  predicate Divides(text: seq<nat>, paragraph: nat, i: nat)
    requires i < |text|
  {
    IsEmbedding(text[i]) || (text[i] == 0x202C && (paragraph != 0 || Open(text, i) != []))
  }

  lemma DividesBreaks(text: seq<nat>, paragraph: nat, i: nat)
    requires i < |text|
    ensures Divides(text, paragraph, i) <==> Breaks(text, paragraph, i)
  {
    ZeroLevel(paragraph, Open(text, i));
  }

  predicate Holds(e: Entity, i: nat) {
    e.begin <= i < e.end
  }

  lemma ReasonBehind(text: seq<nat>, dir: nat -> Kind, paragraph: nat, es: seq<Entity>, a: nat, i: nat)
    returns (c: nat)
    requires Cuts(text, dir, paragraph, es, |text|) && a + 1 < |es| && Holds(es[a], i) && IsPlain(text[i])
    ensures i < c <= es[a + 1].begin < |text|
    ensures Breaks(text, paragraph, c) || (IsPlain(text[c]) && dir(text[c]) != dir(text[i]))
  {
    assert FollowsOn(text, paragraph, es, a + 1);
    assert Uniform(text, dir, paragraph, es[a]) && Uniform(text, dir, paragraph, es[a + 1]);
    assert Inside(text, dir, paragraph, es[a].kind, es[a].level, i);
    assert Inside(text, dir, paragraph, es[a + 1].kind, es[a + 1].level, es[a + 1].begin);
    c := if Breaks(text, paragraph, es[a].end) then es[a].end else es[a + 1].begin;
  }

  /** Two characters are in one entity exactly when all characters from the one to the other are of one
      kind and no control between them divides the text. */
  lemma TogetherExactly(text: seq<nat>, dir: nat -> Kind, paragraph: nat, es: seq<Entity>, i: nat, j: nat)
    requires Cuts(text, dir, paragraph, es, |text|) && i <= j < |text| && IsPlain(text[i]) && IsPlain(text[j])
    ensures (exists k | 0 <= k < |es| :: Holds(es[k], i) && Holds(es[k], j))
            <==> forall c | i <= c <= j ::
                   !Divides(text, paragraph, c) && (IsPlain(text[c]) ==> dir(text[c]) == dir(text[i]))
  {
    forall c | i <= c <= j
      ensures Divides(text, paragraph, c) <==> Breaks(text, paragraph, c)
    {
      DividesBreaks(text, paragraph, c);
    }
    var a := CutsCover(text, dir, paragraph, es, |text|, i);
    var b := CutsCover(text, dir, paragraph, es, |text|, j);
    hide Divides, Breaks;
    if k :| 0 <= k < |es| && Holds(es[k], i) && Holds(es[k], j) {
      assert Uniform(text, dir, paragraph, es[k]);
      assert Inside(text, dir, paragraph, es[k].kind, es[k].level, i);
      forall c | i <= c <= j
        ensures !Divides(text, paragraph, c) && (IsPlain(text[c]) ==> dir(text[c]) == dir(text[i]))
      {
        assert Inside(text, dir, paragraph, es[k].kind, es[k].level, c);
      }
    } else if a < b {
      var c := ReasonBehind(text, dir, paragraph, es, a, i);
      EntitiesInOrder(text, dir, paragraph, es, a + 1, b);
    } else {
      EntitiesInOrder(text, dir, paragraph, es, b, a);
    }
  }

  lemma EntitiesInOrder(text: seq<nat>, dir: nat -> Kind, paragraph: nat, es: seq<Entity>, j: nat, k: nat)
    requires Cuts(text, dir, paragraph, es, |text|) && j <= k < |es|
    ensures es[j].begin <= es[k].begin && es[j].end <= es[k].end && (j < k ==> es[j].end <= es[k].begin)
  {
    assert Uniform(text, dir, paragraph, es[j]) && Uniform(text, dir, paragraph, es[k]);
    if j < k {
      CutsOrdered(text, dir, paragraph, es, |text|, j, k);
    }
  }

  /** An entity of a cut reaches as far as any uniform stretch that begins with it. */
  lemma EndsNoEarlier(text: seq<nat>, dir: nat -> Kind, paragraph: nat, es: seq<Entity>, k: nat, y: Entity)
    requires Cuts(text, dir, paragraph, es, |text|) && k < |es|
    requires Uniform(text, dir, paragraph, y) && es[k].begin == y.begin
    ensures y.end <= es[k].end
  {
    var x := es[k];
    assert Uniform(text, dir, paragraph, x);
    assert Inside(text, dir, paragraph, x.kind, x.level, x.begin);
    assert Inside(text, dir, paragraph, y.kind, y.level, y.begin);
    assert x.end < y.end ==> Inside(text, dir, paragraph, y.kind, y.level, x.end);
    if k + 1 < |es| {
      var z := es[k + 1];
      assert Uniform(text, dir, paragraph, z);
      assert Inside(text, dir, paragraph, z.kind, z.level, z.begin);
      assert FollowsOn(text, paragraph, es, k + 1);
    }
  }

  lemma BeginsNoLater(text: seq<nat>, dir: nat -> Kind, paragraph: nat, a: seq<Entity>, b: seq<Entity>, k: nat)
    requires Cuts(text, dir, paragraph, a, |text|) && Cuts(text, dir, paragraph, b, |text|)
    requires k < |b| && k <= |a| && (k > 0 ==> a[k - 1] == b[k - 1])
    ensures k < |a| && a[k].begin <= b[k].begin
  {
    var next := b[k].begin;
    assert Uniform(text, dir, paragraph, b[k]) && IsPlain(text[next]);
    assert k > 0 ==> FollowsOn(text, paragraph, b, k);
    assert 0 < k < |a| ==> FollowsOn(text, paragraph, a, k);
  }

  lemma SameEntity(text: seq<nat>, dir: nat -> Kind, paragraph: nat, x: Entity, y: Entity)
    requires Uniform(text, dir, paragraph, x) && Uniform(text, dir, paragraph, y)
    requires x.begin == y.begin && x.end == y.end
    ensures x == y
  {
    assert Inside(text, dir, paragraph, x.kind, x.level, x.begin);
    assert Inside(text, dir, paragraph, y.kind, y.level, y.begin);
  }

  lemma NextAgrees(text: seq<nat>, dir: nat -> Kind, paragraph: nat, a: seq<Entity>, b: seq<Entity>, k: nat)
    requires Cuts(text, dir, paragraph, a, |text|) && Cuts(text, dir, paragraph, b, |text|)
    requires k < |a| && k < |b| && (k > 0 ==> a[k - 1] == b[k - 1])
    ensures a[k] == b[k]
  {
    assert a[k].begin == b[k].begin by {
      BeginsNoLater(text, dir, paragraph, a, b, k);
      BeginsNoLater(text, dir, paragraph, b, a, k);
    }
    assert Uniform(text, dir, paragraph, a[k]) && Uniform(text, dir, paragraph, b[k]);
    assert a[k].end == b[k].end by {
      EndsNoEarlier(text, dir, paragraph, a, k, b[k]);
      EndsNoEarlier(text, dir, paragraph, b, k, a[k]);
    }
    SameEntity(text, dir, paragraph, a[k], b[k]);
  }

  // ---------- One step of the scan ----------

  /** The next character belongs to the last entity, or the next control is a PDF that it skips. */
  lemma CutsExtend(text: seq<nat>, dir: nat -> Kind, paragraph: nat, es: seq<Entity>, e: Entity, n: nat)
    requires n < |text| && Cuts(text, dir, paragraph, es + [e], n) && e.end == n
    requires Inside(text, dir, paragraph, e.kind, e.level, n)
    ensures Cuts(text, dir, paragraph, es + [e.(end := n + 1)], n + 1)
  {
    var before, after := es + [e], es + [e.(end := n + 1)];
    forall k | 0 <= k < |after|
      ensures Uniform(text, dir, paragraph, after[k]) && after[k].end <= n + 1
    {
      assert Uniform(text, dir, paragraph, before[k]);
      assert k < |es| ==> after[k] == before[k];
    }
    forall k | 0 < k < |after|
      ensures FollowsOn(text, paragraph, after, k)
    {
      assert FollowsOn(text, paragraph, before, k);
      assert after[k - 1] == before[k - 1] && after[k].begin == before[k].begin && after[k].kind == before[k].kind;
    }
  }

  /** The next character starts an entity of its own. */
  lemma CutsStart(text: seq<nat>, dir: nat -> Kind, paragraph: nat, es: seq<Entity>, n: nat)
    requires n < |text| && Cuts(text, dir, paragraph, es, n) && IsPlain(text[n])
    requires es != [] && es[|es| - 1].end == n ==> es[|es| - 1].kind != dir(text[n])
    ensures Cuts(text, dir, paragraph, es + [Entity(n, n + 1, dir(text[n]), LevelAt(text, paragraph, n))], n + 1)
  {
    var after := es + [Entity(n, n + 1, dir(text[n]), LevelAt(text, paragraph, n))];
    forall k | 0 <= k < |after|
      ensures Uniform(text, dir, paragraph, after[k]) && after[k].end <= n + 1
    {
      assert k < |es| ==> Uniform(text, dir, paragraph, es[k]);
    }
    forall k | 0 < k < |after|
      ensures FollowsOn(text, paragraph, after, k)
    {
      assert k < |es| ==> FollowsOn(text, paragraph, es, k);
    }
  }

  /** The next control belongs to no entity. */
  lemma CutsSkip(text: seq<nat>, dir: nat -> Kind, paragraph: nat, es: seq<Entity>, n: nat)
    requires n < |text| && Cuts(text, dir, paragraph, es, n) && !IsPlain(text[n])
    requires es != [] && es[|es| - 1].end == n ==> Breaks(text, paragraph, n)
    ensures Cuts(text, dir, paragraph, es, n + 1)
  {
    forall k | 0 <= k < |es|
      ensures Uniform(text, dir, paragraph, es[k]) && es[k].end <= n + 1
    {
    }
  }

  /** The entities pushed so far and the one being built cut the text up to c. */
  ghost predicate Scanned(text: seq<nat>, dir: nat -> Kind, paragraph: nat, es: seq<Entity>,
                          building: bool, begin: nat, kind: Kind, level: nat, c: nat)
    requires c <= |text|
  {
    if building then Cuts(text, dir, paragraph, es + [Entity(begin, c, kind, level)], c)
    else Cuts(text, dir, paragraph, es, c) && (es != [] ==> es[|es| - 1].end < c)
  }

  lemma ScanBreak(text: seq<nat>, dir: nat -> Kind, paragraph: nat, es: seq<Entity>,
                  building: bool, begin: nat, kind: Kind, level: nat, next: nat, c: nat)
    requires c < |text| && Scanned(text, dir, paragraph, es, building, begin, kind, level, c)
    requires Breaks(text, paragraph, c)
    ensures var es' := if building then es + [Entity(begin, c, kind, level)] else es;
            Scanned(text, dir, paragraph, es', false, begin, kind, next, c + 1)
  {
    CutsSkip(text, dir, paragraph, if building then es + [Entity(begin, c, kind, level)] else es, c);
  }

  lemma ScanSkippedPdf(text: seq<nat>, dir: nat -> Kind, paragraph: nat, es: seq<Entity>,
                       building: bool, begin: nat, kind: Kind, level: nat, c: nat)
    requires c < |text| && Scanned(text, dir, paragraph, es, building, begin, kind, level, c)
    requires !IsPlain(text[c]) && !Breaks(text, paragraph, c) && level == LevelAt(text, paragraph, c)
    ensures Scanned(text, dir, paragraph, es, building, begin, kind, level, c + 1)
  {
    if building {
      CutsExtend(text, dir, paragraph, es, Entity(begin, c, kind, level), c);
    } else {
      CutsSkip(text, dir, paragraph, es, c);
    }
  }

  lemma ScanCharacter(text: seq<nat>, dir: nat -> Kind, paragraph: nat, es: seq<Entity>,
                      building: bool, begin: nat, kind: Kind, level: nat, c: nat)
    requires c < |text| && Scanned(text, dir, paragraph, es, building, begin, kind, level, c)
    requires IsPlain(text[c]) && level == LevelAt(text, paragraph, c)
    ensures var k := dir(text[c]);
            if !building then Scanned(text, dir, paragraph, es, true, c, k, level, c + 1)
            else if kind != k then
              Scanned(text, dir, paragraph, es + [Entity(begin, c, kind, level)], true, c, k, level, c + 1)
            else Scanned(text, dir, paragraph, es, true, begin, kind, level, c + 1)
  {
    if !building {
      CutsStart(text, dir, paragraph, es, c);
    } else if kind != dir(text[c]) {
      CutsStart(text, dir, paragraph, es + [Entity(begin, c, kind, level)], c);
    } else {
      CutsExtend(text, dir, paragraph, es, Entity(begin, c, kind, level), c);
    }
  }

  /** What the source saves at an embedding and restores at a PDF. */
  datatype Override = Neutral | RightToLeft | LeftToRight
  datatype Remember = Remember(level: nat, override: Override)

  /** The state inside an embedding. */
  function Enter(cur: Remember, c: nat): (next: Remember)
    requires IsEmbedding(c)
    ensures next.level == Raise(cur.level, c)
  {
    if c == LRE_CHAR then Remember(cur.level + (2 - cur.level % 2), Neutral)
    else if c == RLE_CHAR then Remember(cur.level + (cur.level % 2 + 1), Neutral)
    else if c == LRO_CHAR then Remember(cur.level + (2 - cur.level % 2), LeftToRight)
    else Remember(cur.level % 2 + 1, RightToLeft)
  }

  /** The saved levels are those of the open embeddings, each without its inner ones. */
  predicate StackMatches(text: seq<nat>, paragraph: nat, stack: seq<Remember>, i: nat)
    requires i <= |text|
  {
    var open := Open(text, i);
    |stack| == |open| && forall k | 0 <= k < |open| :: stack[k].level == LevelOf(paragraph, open[..k])
  }

  lemma StackPush(text: seq<nat>, paragraph: nat, stack: seq<Remember>, cur: Remember, i: nat)
    requires i < |text| && IsEmbedding(text[i])
    requires StackMatches(text, paragraph, stack, i) && cur.level == LevelAt(text, paragraph, i)
    ensures StackMatches(text, paragraph, stack + [cur], i + 1)
    ensures LevelAt(text, paragraph, i + 1) == Raise(cur.level, text[i])
  {
    var open, next := Open(text, i), Open(text, i + 1);
    assert next == open + [text[i]];
    forall k | 0 <= k < |next|
      ensures (stack + [cur])[k].level == LevelOf(paragraph, next[..k])
    {
      assert next[..k] == open[..k];
      assert open[..|open|] == open;
    }
    assert next[..|next| - 1] == open;
  }

  lemma StackPop(text: seq<nat>, paragraph: nat, stack: seq<Remember>, i: nat)
    requires i < |text| && text[i] == PDF_CHAR && stack != []
    requires StackMatches(text, paragraph, stack, i)
    ensures StackMatches(text, paragraph, stack[..|stack| - 1], i + 1)
    ensures LevelAt(text, paragraph, i + 1) == stack[|stack| - 1].level
  {
    var open, next := Open(text, i), Open(text, i + 1);
    assert next == open[..|open| - 1];
    forall k | 0 <= k < |next|
      ensures stack[k].level == LevelOf(paragraph, next[..k])
    {
      assert next[..k] == open[..k];
    }
  }

  /** What holds before each step of the scan. */
  datatype Progress = Progress(stack: seq<Remember>, cur: Remember, building: bool, begin: nat, kind: Kind)

  ghost predicate ScannedTo(text: seq<nat>, dir: nat -> Kind, paragraph: nat, es: seq<Entity>, p: Progress, c: nat)
    requires c <= |text|
  {
    && p.cur.level == LevelAt(text, paragraph, c)
    && StackMatches(text, paragraph, p.stack, c)
    && Scanned(text, dir, paragraph, es, p.building, p.begin, p.kind, p.cur.level, c)
  }

  /** The entities after pushing the one being built. */
  function Pushed(es: seq<Entity>, p: Progress, c: nat): seq<Entity> {
    if p.building then es + [Entity(p.begin, c, p.kind, p.cur.level)] else es
  }

  lemma ScanStarts(text: seq<nat>, dir: nat -> Kind, paragraph: nat, p: Progress)
    requires p.stack == [] && p.cur.level == paragraph && !p.building
    ensures ScannedTo(text, dir, paragraph, [], p, 0)
  {
  }

  lemma ScanEnds(text: seq<nat>, dir: nat -> Kind, paragraph: nat, es: seq<Entity>, p: Progress)
    requires ScannedTo(text, dir, paragraph, es, p, |text|)
    ensures Cuts(text, dir, paragraph, Pushed(es, p, |text|), |text|)
  {
  }

  lemma StepPdf(text: seq<nat>, dir: nat -> Kind, paragraph: nat, es: seq<Entity>, p: Progress, c: nat)
    requires c < |text| && ScannedTo(text, dir, paragraph, es, p, c) && text[c] == PDF_CHAR
    ensures p.stack == [] <==> Open(text, c) == []
    ensures p.cur.level == 0 <==> paragraph == 0 && Open(text, c) == []
    ensures p.cur.level == 0 ==> ScannedTo(text, dir, paragraph, es, p, c + 1)
    ensures p.cur.level != 0 && p.stack != [] ==>
              var top := |p.stack| - 1;
              ScannedTo(text, dir, paragraph, Pushed(es, p, c),
                        p.(stack := p.stack[..top], cur := p.stack[top], building := false), c + 1)
  {
    ZeroLevel(paragraph, Open(text, c));
    if p.cur.level == 0 {
      ScanSkippedPdf(text, dir, paragraph, es, p.building, p.begin, p.kind, 0, c);
    } else if p.stack != [] {
      StackPop(text, paragraph, p.stack, c);
      ScanBreak(text, dir, paragraph, es, p.building, p.begin, p.kind, p.cur.level, p.stack[|p.stack| - 1].level, c);
    }
  }

  lemma StepEmbedding(text: seq<nat>, dir: nat -> Kind, paragraph: nat, es: seq<Entity>, p: Progress, c: nat)
    requires c < |text| && ScannedTo(text, dir, paragraph, es, p, c) && IsEmbedding(text[c])
    ensures ScannedTo(text, dir, paragraph, Pushed(es, p, c),
                      p.(stack := p.stack + [p.cur], cur := Enter(p.cur, text[c]), building := false), c + 1)
  {
    StackPush(text, paragraph, p.stack, p.cur, c);
    ScanBreak(text, dir, paragraph, es, p.building, p.begin, p.kind, p.cur.level, Enter(p.cur, text[c]).level, c);
  }

  lemma StepCharacter(text: seq<nat>, dir: nat -> Kind, paragraph: nat, es: seq<Entity>, p: Progress, c: nat)
    requires c < |text| && ScannedTo(text, dir, paragraph, es, p, c) && IsPlain(text[c])
    ensures if p.building && p.kind == dir(text[c]) then ScannedTo(text, dir, paragraph, es, p, c + 1)
            else ScannedTo(text, dir, paragraph, Pushed(es, p, c),
                           p.(building := true, begin := c, kind := dir(text[c])), c + 1)
  {
    ScanCharacter(text, dir, paragraph, es, p.building, p.begin, p.kind, p.cur.level, c);
  }

  predicate StepAgrees<T(==)>(a: seq<T>, b: seq<T>, k: nat)
    requires k < |a| && k < |b|
  {
    (k > 0 ==> a[k - 1] == b[k - 1]) ==> a[k] == b[k]
  }

  lemma {:induction false} StepwiseEqual<T>(a: seq<T>, b: seq<T>, k: nat)
    requires forall j | 0 <= j < |a| && j < |b| :: StepAgrees(a, b, j)
    requires k < |a| && k < |b|
    ensures a[k] == b[k]
  {
    if k > 0 {
      StepwiseEqual(a, b, k - 1);
    }
    assert StepAgrees(a, b, k);
  }

  /** A text has one cut only. */
  lemma CutsUnique(text: seq<nat>, dir: nat -> Kind, paragraph: nat, a: seq<Entity>, b: seq<Entity>)
    requires Cuts(text, dir, paragraph, a, |text|) && Cuts(text, dir, paragraph, b, |text|)
    ensures a == b
  {
    forall k | 0 <= k < |a| && k < |b|
      ensures a[k] == b[k]
    {
      forall j | 0 <= j < |a| && j < |b|
        ensures StepAgrees(a, b, j)
      {
        if j > 0 ==> a[j - 1] == b[j - 1] {
          NextAgrees(text, dir, paragraph, a, b, j);
        }
      }
      StepwiseEqual(a, b, k);
    }
    if |b| < |a| {
      BeginsNoLater(text, dir, paragraph, b, a, |b|);
    } else if |a| < |b| {
      BeginsNoLater(text, dir, paragraph, a, b, |a|);
    }
  }
}
