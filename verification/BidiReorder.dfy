/** Rule L2 (section 3.4 of UAX #9) and the loop that carries it out. */
module BidiReorder {
  import opened BidiTypes

  function Levels(v: seq<Entity>): seq<nat> {
    seq(|v|, i requires 0 <= i < |v| => v[i].level)
  }

  /** The maximal run of levels >= k around position i. */
  function RunBegin(levels: seq<nat>, i: nat, k: nat): (b: nat)
    requires i <= |levels|
    ensures b <= i
    ensures forall j | b <= j < i :: levels[j] >= k
    ensures b > 0 ==> levels[b - 1] < k
  {
    if i > 0 && levels[i - 1] >= k then RunBegin(levels, i - 1, k) else i
  }

  function RunEnd(levels: seq<nat>, i: nat, k: nat): (e: nat)
    requires i <= |levels|
    ensures i <= e <= |levels|
    ensures forall j | i <= j < e :: levels[j] >= k
    ensures e < |levels| ==> levels[e] < k
    decreases |levels| - i
  {
    if i < |levels| && levels[i] >= k then RunEnd(levels, i + 1, k) else i
  }

  lemma RunIs(levels: seq<nat>, b: nat, i: nat, e: nat, k: nat)
    requires b <= i < e <= |levels|
    requires forall j | b <= j < e :: levels[j] >= k
    requires b > 0 ==> levels[b - 1] < k
    requires e < |levels| ==> levels[e] < k
    ensures RunBegin(levels, i, k) == b && RunEnd(levels, i, k) == e
  {
    var b', e' := RunBegin(levels, i, k), RunEnd(levels, i, k);
    assert !(b' < b) && !(b < b') && !(e' < e) && !(e < e');
  }

  /** Where reversing the runs of level >= k takes the entry at position i from. */
  function Mirror(levels: seq<nat>, i: nat, k: nat): (m: nat)
    requires i < |levels|
    ensures m < |levels|
  {
    if levels[i] < k then i else RunBegin(levels, i, k) + RunEnd(levels, i, k) - 1 - i
  }

  function ReverseRuns<T>(levels: seq<nat>, s: seq<T>, k: nat): (r: seq<T>)
    requires |levels| == |s|
    ensures |r| == |s|
  {
    seq(|s|, i requires 0 <= i < |s| => s[Mirror(levels, i, k)])
  }

  lemma MirrorTwice(levels: seq<nat>, i: nat, k: nat)
    requires i < |levels|
    ensures levels[Mirror(levels, i, k)] >= k <==> levels[i] >= k
    ensures Mirror(levels, Mirror(levels, i, k), k) == i
  {
    if levels[i] >= k {
      var b, e := RunBegin(levels, i, k), RunEnd(levels, i, k);
      RunIs(levels, b, Mirror(levels, i, k), e, k);
    }
  }

  /** Inside a run the positions are mirrored; outside all runs they stay. */
  lemma MirrorInRun(levels: seq<nat>, b: nat, e: nat, k: nat)
    requires b < e <= |levels|
    requires forall j | b <= j < e :: levels[j] >= k
    requires b > 0 ==> levels[b - 1] < k
    requires e < |levels| ==> levels[e] < k
    ensures forall j | b <= j < e :: Mirror(levels, j, k) == b + e - 1 - j
  {
    forall j | b <= j < e
      ensures Mirror(levels, j, k) == b + e - 1 - j
    {
      RunIs(levels, b, j, e, k);
    }
  }

  lemma MirrorOutside(levels: seq<nat>, i: nat, k: nat)
    requires i < |levels| && levels[i] < k
    ensures Mirror(levels, i, k) == i
  {
  }

  /** The first n entries are already where the pass puts them. */
  predicate Reversed<T(==)>(levels: seq<nat>, s: seq<T>, r: seq<T>, k: nat, n: nat)
    requires |levels| == |s| == |r|
  {
    forall j | 0 <= j < |s| :: r[j] == s[if j < n then Mirror(levels, j, k) else j]
  }

  lemma ReversedAll<T>(levels: seq<nat>, s: seq<T>, r: seq<T>, k: nat)
    requires |levels| == |s| == |r|
    ensures Reversed(levels, s, s, k, 0)
    ensures Reversed(levels, s, r, k, |s|) ==> r == ReverseRuns(levels, s, k)
  {
  }

  lemma ReversedRun<T>(levels: seq<nat>, s: seq<T>, r: seq<T>, r': seq<T>, k: nat, b: nat, e: nat)
    requires |levels| == |s| == |r| == |r'| && Reversed(levels, s, r, k, b)
    requires b < e <= |levels|
    requires forall j | b <= j < e :: levels[j] >= k
    requires b > 0 ==> levels[b - 1] < k
    requires e < |levels| ==> levels[e] < k
    requires forall j | b <= j < e :: r'[j] == r[b + e - 1 - j]
    requires forall j | 0 <= j < |s| && !(b <= j < e) :: r'[j] == r[j]
    ensures Reversed(levels, s, r', k, e)
  {
    hide Mirror;
    MirrorInRun(levels, b, e, k);
    forall j | 0 <= j < |s|
      ensures r'[j] == s[if j < e then Mirror(levels, j, k) else j]
    {
      if b <= j < e {
        var m := b + e - 1 - j;
        assert r'[j] == r[m] == s[m] && Mirror(levels, j, k) == m;
      } else {
        assert r'[j] == r[j];
      }
    }
  }

  lemma ReversedOutside<T>(levels: seq<nat>, s: seq<T>, r: seq<T>, k: nat, i: nat)
    requires |levels| == |s| == |r| && i < |s| && levels[i] < k && Reversed(levels, s, r, k, i)
    ensures Reversed(levels, s, r, k, i + 1)
  {
    MirrorOutside(levels, i, k);
  }

  /** Only the pattern of the levels that reach k matters to a pass. */
  lemma MirrorByPattern(levels: seq<nat>, other: seq<nat>, i: nat, k: nat, k': nat)
    requires i < |levels| == |other|
    requires forall j | 0 <= j < |levels| :: levels[j] >= k <==> other[j] >= k'
    ensures Mirror(levels, i, k) == Mirror(other, i, k')
  {
    if levels[i] >= k {
      var b, e := RunBegin(levels, i, k), RunEnd(levels, i, k);
      RunIs(other, b, i, e, k');
    }
  }

  // ---------- The loop of the source: runs are read off levels that stay put ----------

  function Passes<T>(levels: seq<nat>, s: seq<T>, high: nat, low: nat): (r: seq<T>)
    requires |levels| == |s|
    ensures |r| == |s|
    decreases high
  {
    if high < low || high == 0 then s else Passes(levels, ReverseRuns(levels, s, high), high - 1, low)
  }

  function Highest(levels: seq<nat>): (h: nat)
    ensures forall i | 0 <= i < |levels| :: levels[i] <= h
    ensures h == 0 || h in levels
  {
    if levels == [] then 0
    else
      var h := Highest(levels[1..]);
      assert forall i | 1 <= i < |levels| :: levels[i] == levels[1..][i - 1];
      if levels[0] > h then levels[0] else h
  }

  // ---------- Rule L2: runs are read off the line as it stands ----------

  function L2Passes(line: seq<Entity>, high: nat, low: nat): seq<Entity>
    decreases high
  {
    if high < low || high == 0 then line
    else L2Passes(ReverseRuns(Levels(line), line, high), high - 1, low)
  }

  /** The least odd level below `none`, or `none` when there is no such level. */
  function LowestOdd(levels: seq<nat>, none: nat): (m: nat)
    ensures m <= none
    ensures forall i | 0 <= i < |levels| && levels[i] % 2 == 1 && levels[i] < none :: m <= levels[i]
    ensures m == none || (m in levels && m % 2 == 1)
  {
    if levels == [] then none
    else
      var m := LowestOdd(levels[1..], none);
      assert forall i | 1 <= i < |levels| :: levels[i] == levels[1..][i - 1];
      if levels[0] % 2 == 1 && levels[0] < m then levels[0] else m
  }

  /** From the highest level found in the line down to the lowest odd level. */
  function L2(line: seq<Entity>): seq<Entity> {
    var high := Highest(Levels(line));
    L2Passes(line, high, LowestOdd(Levels(line), high + 1))
  }

  // ---------- The loop is rule L2 ----------

  /** The line shows the same pattern of levels as the fixed levels, up to level k. */
  predicate SamePattern(levels: seq<nat>, line: seq<Entity>, k: nat)
    requires |levels| == |line|
  {
    forall i | 0 <= i < |line| :: levels[i] == line[i].level || (levels[i] >= k && line[i].level >= k)
  }

  lemma PassKeepsPattern(levels: seq<nat>, line: seq<Entity>, k: nat)
    requires |levels| == |line| && SamePattern(levels, line, k)
    ensures SamePattern(levels, ReverseRuns(levels, line, k), k)
    ensures ReverseRuns(levels, line, k) == ReverseRuns(Levels(line), line, k)
  {
    forall i | 0 <= i < |line|
      ensures Mirror(levels, i, k) == Mirror(Levels(line), i, k)
    {
      MirrorByPattern(levels, Levels(line), i, k, k);
    }
    var r := ReverseRuns(levels, line, k);
    forall i | 0 <= i < |line|
      ensures levels[i] == r[i].level || (levels[i] >= k && r[i].level >= k)
    {
      MirrorTwice(levels, i, k);
    }
  }

  lemma {:induction false} PassesAreL2Passes(levels: seq<nat>, line: seq<Entity>, high: nat, low: nat)
    requires |levels| == |line| && SamePattern(levels, line, high)
    ensures Passes(levels, line, high, low) == L2Passes(line, high, low)
    decreases high
  {
    if low <= high && high > 0 {
      PassKeepsPattern(levels, line, high);
      PassesAreL2Passes(levels, ReverseRuns(levels, line, high), high - 1, low);
    }
  }

  lemma {:induction false} PassesSplit<T>(levels: seq<nat>, s: seq<T>, high: nat, mid: nat)
    requires |levels| == |s| && 1 <= mid <= high + 1
    ensures Passes(levels, s, high, 1) == Passes(levels, Passes(levels, s, high, mid), mid - 1, 1)
    decreases high
  {
    if mid <= high {
      PassesSplit(levels, ReverseRuns(levels, s, high), high - 1, mid);
    }
  }

  /** Two passes with no level between them undo each other. */
  lemma PassTwice<T>(levels: seq<nat>, s: seq<T>, k: nat)
    requires |levels| == |s| && k > 0
    requires forall i | 0 <= i < |levels| :: levels[i] != k - 1
    ensures ReverseRuns(levels, ReverseRuns(levels, s, k), k - 1) == s
  {
    hide Mirror;
    var twice := ReverseRuns(levels, ReverseRuns(levels, s, k), k - 1);
    forall i | 0 <= i < |s|
      ensures twice[i] == s[i]
    {
      MirrorByPattern(levels, levels, i, k, k - 1);
      MirrorTwice(levels, i, k);
    }
  }

  /** Below the lowest odd level the passes cancel in pairs. */
  lemma {:induction false} PassesCancel<T>(levels: seq<nat>, s: seq<T>, top: nat)
    requires |levels| == |s| && top % 2 == 0
    requires forall i | 0 <= i < |levels| && levels[i] % 2 == 1 :: levels[i] > top
    ensures Passes(levels, s, top, 1) == s
    decreases top
  {
    hide ReverseRuns;
    if top > 0 {
      PassTwice(levels, s, top);
      PassesCancel(levels, s, top - 2);
      assert Passes(levels, s, top, 1) == Passes(levels, ReverseRuns(levels, s, top), top - 1, 1);
    }
  }

  lemma BelowLowestOdd(levels: seq<nat>)
    ensures var high := Highest(levels);
            var low := LowestOdd(levels, high + 1);
            && 1 <= low <= high + 1 && (low <= high ==> (low - 1) % 2 == 0)
            && forall i | 0 <= i < |levels| && levels[i] % 2 == 1 :: levels[i] >= low
  {
    hide Highest, LowestOdd;
  }

  /** For every vector of levels, reversing down to level 1 on fixed levels is rule L2. */
  lemma PassesAreL2(line: seq<Entity>)
    ensures var levels := Levels(line);
            Passes(levels, line, Highest(levels), 1) == L2(line)
  {
    var levels := Levels(line);
    BelowLowestOdd(levels);
    hide ReverseRuns, Passes, L2Passes, Highest, LowestOdd;
    var high := Highest(levels);
    var low := LowestOdd(levels, high + 1);
    assert high in levels || high == 0;
    assert high % 2 == 0 || low <= high;
    PassesSplit(levels, line, high, low);
    PassesCancel(levels, Passes(levels, line, high, low), low - 1);
    PassesAreL2Passes(levels, line, high, low);
  }

  // ---------- Nothing is lost or doubled ----------

  function Identity(n: nat): (s: seq<nat>)
    ensures |s| == n && forall i | 0 <= i < n :: s[i] == i
  {
    seq(n, (i: nat) requires i < n => i)
  }

  /** The order of display, as indices into the entities. */
  function VisualOrder(levels: seq<nat>): seq<nat> {
    Passes<nat>(levels, Identity(|levels|), Highest(levels), 1)
  }

  predicate IsPermutation(order: seq<nat>) {
    && (forall i | 0 <= i < |order| :: order[i] < |order|)
    && (forall i, j | 0 <= i < j < |order| :: order[i] != order[j])
  }

  lemma PassPermutes(levels: seq<nat>, order: seq<nat>, k: nat)
    requires |levels| == |order| && IsPermutation(order)
    ensures IsPermutation(ReverseRuns(levels, order, k))
  {
    hide Mirror;
    var next := ReverseRuns(levels, order, k);
    forall i, j | 0 <= i < j < |order|
      ensures next[i] != next[j]
    {
      MirrorTwice(levels, i, k);
      MirrorTwice(levels, j, k);
    }
  }

  lemma {:induction false} PassesPermute(levels: seq<nat>, order: seq<nat>, high: nat)
    requires |levels| == |order| && IsPermutation(order)
    ensures IsPermutation(Passes(levels, order, high, 1))
    decreases high
  {
    hide ReverseRuns, IsPermutation;
    if high > 0 {
      PassPermutes(levels, order, high);
      PassesPermute(levels, ReverseRuns(levels, order, high), high - 1);
    }
  }

  /** Position by position, the line shows the entities that the order names. */
  predicate Shows(line: seq<Entity>, s: seq<Entity>, order: seq<nat>) {
    |line| == |s| == |order| && forall i | 0 <= i < |line| :: order[i] < |line| && s[i] == line[order[i]]
  }

  lemma {:induction false} PassesFollowOrder(levels: seq<nat>, line: seq<Entity>, s: seq<Entity>,
                                             order: seq<nat>, high: nat)
    requires |levels| == |line| && Shows(line, s, order)
    ensures Shows(line, Passes(levels, s, high, 1), Passes<nat>(levels, order, high, 1))
    decreases high
  {
    if high > 0 {
      PassesFollowOrder(levels, line, ReverseRuns(levels, s, high), ReverseRuns<nat>(levels, order, high), high - 1);
    }
  }

  /** Where the passes leave the entry that starts at position j. */
  function FinalPosition(levels: seq<nat>, j: nat, high: nat): (p: nat)
    requires j < |levels|
    ensures p < |levels|
    decreases high
  {
    if high == 0 then j else FinalPosition(levels, Mirror(levels, j, high), high - 1)
  }

  lemma {:induction false} PassesPlace<T>(levels: seq<nat>, s: seq<T>, j: nat, high: nat)
    requires |levels| == |s| && j < |s|
    ensures Passes(levels, s, high, 1)[FinalPosition(levels, j, high)] == s[j]
    decreases high
  {
    if high > 0 {
      MirrorTwice(levels, j, high);
      PassesPlace(levels, ReverseRuns(levels, s, high), Mirror(levels, j, high), high - 1);
    }
  }

  // ---------- Which of two entities is shown first ----------

  /** Every level from position i to position j reaches k, whichever of the two comes first. */
  predicate Reach(levels: seq<nat>, i: nat, j: nat, k: nat)
    requires i < |levels| && j < |levels|
  {
    (forall c | i <= c <= j :: levels[c] >= k) && (forall c | j <= c <= i :: levels[c] >= k)
  }

  /** Inside one run a pass turns two positions round, and they stay in that run. */
  lemma MirrorTurns(levels: seq<nat>, i: nat, j: nat, k: nat)
    requires i < |levels| && j < |levels| && Reach(levels, i, j, k)
    ensures var i', j' := Mirror(levels, i, k), Mirror(levels, j, k);
            i' - j' == j - i && Reach(levels, i', j', k)
  {
    var first, last := if i < j then i else j, if i < j then j else i;
    var b, e := RunBegin(levels, first, k), RunEnd(levels, last, k);
    MirrorInRun(levels, b, e, k);
  }

  /** Two positions with a lower level between them stay on their sides of it. */
  lemma MirrorKeepsSides(levels: seq<nat>, i: nat, c: nat, j: nat, k: nat)
    requires i <= c <= j < |levels| && levels[c] < k
    ensures Mirror(levels, i, k) <= c <= Mirror(levels, j, k)
    ensures Mirror(levels, i, k) == c <==> i == c
    ensures Mirror(levels, j, k) == c <==> j == c
  {
  }

  lemma MirrorReach(levels: seq<nat>, i: nat, c: nat, j: nat, k: nat, m: nat)
    requires i <= c <= j < |levels| && levels[c] == m < k && Reach(levels, i, j, m)
    ensures var i', j' := Mirror(levels, i, k), Mirror(levels, j, k);
            i' <= c <= j' && Reach(levels, i', j', m)
  {
    MirrorKeepsSides(levels, i, c, j, k);
  }

  /** One pass of the final position. */
  lemma FinalStep(levels: seq<nat>, j: nat, high: nat)
    requires j < |levels|
    ensures FinalPosition(levels, j, high) ==
            if high == 0 then j else FinalPosition(levels, Mirror(levels, j, high), high - 1)
  {
  }

  lemma ReachLess(levels: seq<nat>, i: nat, j: nat, k: nat)
    requires i < |levels| && j < |levels| && k > 0 && Reach(levels, i, j, k)
    ensures Reach(levels, i, j, k - 1)
  {
  }

  lemma {:induction false} TurnedBelow(levels: seq<nat>, i: nat, j: nat, high: nat)
    requires i < |levels| && j < |levels| && i != j && Reach(levels, i, j, high)
    ensures FinalPosition(levels, i, high) < FinalPosition(levels, j, high) <==> (i < j) == (high % 2 == 0)
    decreases high
  {
    hide FinalPosition;
    FinalStep(levels, i, high);
    FinalStep(levels, j, high);
    if high > 0 {
      MirrorTurns(levels, i, j, high);
      hide Mirror, Reach;
      var i', j' := Mirror(levels, i, high), Mirror(levels, j, high);
      ReachLess(levels, i', j', high);
      TurnedBelow(levels, i', j', high - 1);
    }
  }

  lemma {:induction false} OrderByLowest(levels: seq<nat>, i: nat, c: nat, j: nat, high: nat)
    requires i <= c <= j < |levels| && i < j && levels[c] <= high && Reach(levels, i, j, levels[c])
    ensures FinalPosition(levels, i, high) < FinalPosition(levels, j, high) <==> levels[c] % 2 == 0
    decreases high
  {
    hide FinalPosition;
    if levels[c] < high {
      FinalStep(levels, i, high);
      FinalStep(levels, j, high);
      MirrorReach(levels, i, c, j, high, levels[c]);
      MirrorKeepsSides(levels, i, c, j, high);
      hide Mirror, Reach;
      OrderByLowest(levels, Mirror(levels, i, high), c, Mirror(levels, j, high), high - 1);
    } else {
      hide Reach;
      TurnedBelow(levels, i, j, high);
    }
  }

  lemma LowestReaches(line: seq<Entity>, i: nat, c: nat, j: nat)
    requires i <= c <= j < |line| && forall k | i <= k <= j :: line[c].level <= line[k].level
    ensures Reach(Levels(line), i, j, line[c].level) && line[c].level <= Highest(Levels(line))
  {
    assert Levels(line)[c] == line[c].level;
  }

  /** Rule L2 without its passes: of two entities the later one is shown first exactly when the lowest
      level from the one to the other, at c, is odd. */
  lemma L2Order(line: seq<Entity>, i: nat, c: nat, j: nat)
    requires i <= c <= j < |line| && i < j && forall k | i <= k <= j :: line[c].level <= line[k].level
    ensures var levels := Levels(line);
            var p := FinalPosition(levels, i, Highest(levels));
            var q := FinalPosition(levels, j, Highest(levels));
            && p < |L2(line)| && q < |L2(line)| && L2(line)[p] == line[i] && L2(line)[q] == line[j]
            && (p < q <==> line[c].level % 2 == 0)
  {
    var levels := Levels(line);
    var high := Highest(levels);
    PassesAreL2(line);
    PassesPlace(levels, line, i, high);
    PassesPlace(levels, line, j, high);
    LowestReaches(line, i, c, j);
    assert levels[c] == line[c].level;
    hide FinalPosition, L2, Passes, Reach, Highest;
    OrderByLowest(levels, i, c, j, high);
  }

  /** L2 shows every entity exactly once. */
  lemma L2Permutes(line: seq<Entity>)
    ensures var order := VisualOrder(Levels(line));
            IsPermutation(order) && Shows(line, L2(line), order)
  {
    var levels := Levels(line);
    var identity := Identity(|levels|);
    PassesAreL2(line);
    PassesPermute(levels, identity, Highest(levels));
    PassesFollowOrder(levels, line, line, identity, Highest(levels));
  }
}
