/** Putting arguments into a text: `%arg` and a decimal number stand for the argument of that number. */
module Arguments {

  datatype Filled = Filled(text: string) | Throws

  const INT_MAX: nat := 0x7FFF_FFFF

  predicate IsDigit(c: char) {
    '0' <= c <= '9'
  }

  predicate MarkerAt(s: string, i: nat) {
    i + 4 <= |s| && s[i] == '%' && s[i + 1] == 'a' && s[i + 2] == 'r' && s[i + 3] == 'g'
  }

  /** How many digits the text starts with. */
  function Digits(s: string): (n: nat)
    ensures n <= |s| && (forall i :: 0 <= i < n ==> IsDigit(s[i])) && (n < |s| ==> !IsDigit(s[n]))
  {
    if s != "" && IsDigit(s[0]) then 1 + Digits(s[1..]) else 0
  }

  /** The number that a row of digits denotes. */
  function Number(s: string): nat
    requires forall i :: 0 <= i < |s| ==> IsDigit(s[i])
  {
    if s == "" then 0
    else
      var last := s[|s| - 1];
      assert IsDigit(last);
      10 * Number(s[..|s| - 1]) + (last as int - '0' as int)
  }

  function Join(a: string, f: Filled): Filled {
    match f
    case Filled(text) => Filled(a + text)
    case Throws => Throws
  }

  /** An argument that is not there is nothing. */
  function Argument(args: seq<string>, k: nat): string {
    if k < |args| then args[k] else ""
  }

  /** The text with its arguments, read once from left to right. A marker without a number stays,
      unless it ends the text; then, and when the number is too large, the conversion throws. */
  function Substituted(s: string, args: seq<string>): Filled
    decreases |s|
  {
    if s == "" then Filled("")
    else if !MarkerAt(s, 0) then Join([s[0]], Substituted(s[1..], args))
    else
      var n := Digits(s[4..]);
      if n == 0 && 4 < |s| then Join("%arg", Substituted(s[4..], args))
      else if n == 0 || Number(s[4..4 + n]) > INT_MAX then Throws
      else Join(Argument(args, Number(s[4..4 + n])), Substituted(s[4 + n..], args))
  }

  /** Text that neither contains nor begins a marker. */
  predicate Harmless(s: string) {
    forall i :: 0 <= i < |s| && s[i] == '%' ==> i + 1 < |s| && s[i + 1] != 'a'
  }

  lemma JoinJoin(a: string, b: string, f: Filled)
    ensures Join(a, Join(b, f)) == Join(a + b, f) && Join("", f) == f
  {
    assert f.Filled? ==> a + (b + f.text) == (a + b) + f.text;
  }

  lemma {:induction false} WithoutMarker(s: string, k: nat, args: seq<string>)
    requires k <= |s| && forall i :: 0 <= i < k ==> !MarkerAt(s, i)
    ensures Substituted(s, args) == Join(s[..k], Substituted(s[k..], args))
  {
    if k == 0 {
      assert s[0..] == s;
      JoinJoin("", "", Substituted(s, args));
    } else {
      hide Join;
      forall i | 0 <= i < k - 1 ensures !MarkerAt(s[1..], i) {
        assert !MarkerAt(s, i + 1);
      }
      WithoutMarker(s[1..], k - 1, args);
      assert s[1..][k - 1..] == s[k..] && [s[0]] + s[1..][..k - 1] == s[..k];
      assert !MarkerAt(s, 0);
      JoinJoin([s[0]], s[1..][..k - 1], Substituted(s[k..], args));
    }
  }

  lemma HarmlessPrefix(a: string, b: string, args: seq<string>)
    requires Harmless(a)
    ensures Substituted(a + b, args) == Join(a, Substituted(b, args))
  {
    var s := a + b;
    forall i | 0 <= i < |a| ensures !MarkerAt(s, i) {
      if s[i] == '%' {
        assert a[i] == '%' && s[i + 1] == a[i + 1];
      }
    }
    WithoutMarker(s, |a|, args);
    assert s[..|a|] == a && s[|a|..] == b;
  }

  /** How often a percent sign stands before an 'a'; each turn of the loop leaves fewer behind its offset. */
  function Marks(s: string): nat {
    if |s| < 2 then 0 else (if s[0] == '%' && s[1] == 'a' then 1 else 0) + Marks(s[1..])
  }

  lemma {:induction false} MarksBehind(s: string, k: nat)
    requires k <= |s|
    ensures Marks(s[k..]) <= Marks(s)
    ensures 1 <= k < |s| && s[0] == '%' && s[1] == 'a' ==> Marks(s[k..]) < Marks(s)
  {
    if k > 0 {
      MarksBehind(s[1..], k - 1);
      assert s[1..][k - 1..] == s[k..];
    } else {
      assert s[0..] == s;
    }
  }

  lemma {:induction false} MarksHarmless(a: string, b: string)
    requires Harmless(a)
    ensures Marks(a + b) == Marks(b)
  {
    if a == "" {
      assert a + b == b;
    } else {
      forall i | 0 <= i < |a[1..]| && a[1..][i] == '%' ensures i + 1 < |a[1..]| && a[1..][i + 1] != 'a' {
        assert a[i + 1] == '%';
      }
      MarksHarmless(a[1..], b);
      assert (a + b)[1..] == a[1..] + b;
      assert a[0] == '%' ==> (a + b)[1] == a[1];
    }
  }

  /** The first marker from an offset on, or -1. */
  function FirstMarker(s: string, from: nat): (pos: int)
    requires from <= |s|
    ensures pos == -1 ==> forall i :: from <= i < |s| ==> !MarkerAt(s, i)
    ensures pos != -1 ==> from <= pos && MarkerAt(s, pos) && forall i :: from <= i < pos ==> !MarkerAt(s, i)
    decreases |s| - from
  {
    if from == |s| then -1 else if MarkerAt(s, from) then from else FirstMarker(s, from + 1)
  }

  method FindMarker(s: string, from: nat) returns (pos: int)
    requires from <= |s|
    ensures pos == FirstMarker(s, from)
  {
    pos := from;
    while pos < |s|
      invariant from <= pos <= |s| && FirstMarker(s, from) == FirstMarker(s, pos)
    {
      if MarkerAt(s, pos) {
        return;
      }
      pos := pos + 1;
    }
    pos := -1;
  }

  method SkipDigits(s: string, from: nat) returns (pos: nat)
    requires from <= |s|
    ensures pos == from + Digits(s[from..])
  {
    pos := from;
    assert s[from..][0..] == s[from..];
    while pos < |s| && IsDigit(s[pos])
      invariant from <= pos <= |s| && Digits(s[from..]) == pos - from + Digits(s[pos..])
    {
      assert s[pos..][1..] == s[pos + 1..];
      pos := pos + 1;
    }
  }

  /** One turn of the loop: it goes on with a text and an offset, or it is done. */
  datatype Turned = More(str: string, offset: nat) | Finished(r: Filled)

  /** The edit at a marker. */
  function TurnAt(str: string, pos: nat, args: seq<string>): (t: Turned)
    requires MarkerAt(str, pos)
    ensures t.More? ==> t.offset <= |t.str|
  {
    var n := Digits(str[pos + 4..]);
    if n == 0 && pos + 4 < |str| then More(str, pos + 4)
    else if n == 0 || Number(str[pos + 4..][..n]) > INT_MAX then Finished(Throws)
    else More(str[..pos] + Argument(args, Number(str[pos + 4..][..n])) + str[pos + 4 + n..], pos)
  }

  function Turn(str: string, offset: nat, args: seq<string>): (t: Turned)
    requires offset <= |str|
    ensures t.More? ==> t.offset <= |t.str|
  {
    var pos := FirstMarker(str, offset);
    if pos == -1 then Finished(Filled(str)) else TurnAt(str, pos, args)
  }

  /** The loop is done within n turns. */
  predicate StopsIn(str: string, offset: nat, args: seq<string>, n: nat)
    requires offset <= |str|
    decreases n
  {
    var t := Turn(str, offset, args);
    n > 0 && (t.Finished? || StopsIn(t.str, t.offset, args, n - 1))
  }

  function Result(str: string, offset: nat, args: seq<string>, n: nat): Filled
    requires offset <= |str| && StopsIn(str, offset, args, n)
    decreases n
  {
    var t := Turn(str, offset, args);
    if t.Finished? then t.r else Result(t.str, t.offset, args, n - 1)
  }

  method ReplaceMarker(str: string, pos: nat, args: seq<string>) returns (t: Turned)
    requires MarkerAt(str, pos)
    ensures t == TurnAt(str, pos, args)
  {
    var end := SkipDigits(str, pos + 4);
    ghost var n := Digits(str[pos + 4..]);
    if end == |str| || end != pos + 4 {
      assert str[pos + 4..][..n] == str[pos + 4..end];
      if end == pos + 4 || Number(str[pos + 4..end]) > INT_MAX {
        return Finished(Throws);
      }
      var arg := Argument(args, Number(str[pos + 4..end]));
      return More(str[..pos] + arg + str[end..], pos);
    } else {
      return More(str, pos + 4);
    }
  }

  /** `_m_replace_args`, which edits the text in place and looks again at what it has put in. It is
      called only where the loop ends; `turns` says how soon. */
  method ReplaceArgs(msg: string, args: seq<string>, ghost turns: nat) returns (r: Filled)
    requires StopsIn(msg, 0, args, turns)
    ensures r == Result(msg, 0, args, turns)
  {
    hide TurnAt, FirstMarker;
    var str := msg;
    var offset: nat := 0;
    ghost var left := turns;
    while true
      invariant offset <= |str| && StopsIn(str, offset, args, left)
      invariant Result(str, offset, args, left) == Result(msg, 0, args, turns)
      decreases left
    {
      var found := FindMarker(str, offset);
      if found == -1 {
        return Filled(str);
      }
      var t := ReplaceMarker(str, found, args);
      if t.Finished? {
        return t.r;
      }
      str, offset := t.str, t.offset;
      left := left - 1;
    }
  }

  // ---------- The turns of the loop ----------

  lemma NoMarkerLeft(s: string, offset: nat, args: seq<string>)
    requires offset <= |s| && forall i :: offset <= i < |s| ==> !MarkerAt(s, i)
    ensures Join(s[..offset], Substituted(s[offset..], args)) == Filled(s)
  {
    var left := s[offset..];
    forall i | 0 <= i < |left| ensures !MarkerAt(left, i) {
      assert !MarkerAt(s, offset + i);
    }
    WithoutMarker(left, |left|, args);
    assert left[|left|..] == "" && left[..|left|] == left && left + "" == left;
    assert s[..offset] + left == s;
  }

  lemma MarkerLeft(s: string, offset: nat, found: nat, args: seq<string>)
    requires offset <= found && MarkerAt(s, found) && forall i :: offset <= i < found ==> !MarkerAt(s, i)
    ensures Join(s[..offset], Substituted(s[offset..], args)) == Join(s[..found], Substituted(s[found..], args))
    ensures Marks(s[found..]) <= Marks(s[offset..]) && MarkerAt(s[found..], 0)
  {
    hide Join;
    var left, k := s[offset..], found - offset;
    forall i | 0 <= i < k ensures !MarkerAt(left, i) {
      assert !MarkerAt(s, offset + i);
    }
    WithoutMarker(left, k, args);
    assert left[k..] == s[found..] && s[..offset] + left[..k] == s[..found];
    JoinJoin(s[..offset], left[..k], Substituted(s[found..], args));
    MarksBehind(left, k);
  }

  lemma NumberThrows(s: string, front: string, args: seq<string>)
    requires MarkerAt(s, 0)
    requires var n := Digits(s[4..]); (n == 0 && |s| == 4) || (n > 0 && Number(s[4..4 + n]) > INT_MAX)
    ensures Join(front, Substituted(s, args)) == Throws
  {
  }

  lemma NumberFilled(s: string, front: string, args: seq<string>)
    requires MarkerAt(s, 0) && Digits(s[4..]) > 0 && Number(s[4..4 + Digits(s[4..])]) <= INT_MAX
    requires forall a :: a in args ==> Harmless(a)
    ensures var n := Digits(s[4..]);
            var left := Argument(args, Number(s[4..4 + n])) + s[4 + n..];
            && Join(front, Substituted(s, args)) == Join(front, Substituted(left, args))
            && Marks(left) < Marks(s)
  {
    hide Harmless;
    var n := Digits(s[4..]);
    var arg := Argument(args, Number(s[4..4 + n]));
    assert Harmless(arg) by {
      EmptyHarmless();
    }
    HarmlessPrefix(arg, s[4 + n..], args);
    MarksHarmless(arg, s[4 + n..]);
    MarksAtMarker(s, 4 + n);
  }

  lemma EmptyHarmless()
    ensures Harmless("")
  {
  }

  lemma MarksAtMarker(s: string, k: nat)
    requires MarkerAt(s, 0) && 4 <= k <= |s|
    ensures Marks(s[k..]) < Marks(s)
  {
    MarksBehind(s[1..], k - 1);
    assert s[1..][k - 1..] == s[k..];
  }

  lemma MarkerKept(s: string, front: string, args: seq<string>)
    requires MarkerAt(s, 0) && 4 < |s| && Digits(s[4..]) == 0
    ensures Join(front, Substituted(s, args)) == Join(front + "%arg", Substituted(s[4..], args))
    ensures Marks(s[4..]) < Marks(s)
  {
    JoinJoin(front, "%arg", Substituted(s[4..], args));
    MarksAtMarker(s, 4);
  }

  /** A turn at a marker keeps the meaning of the text, with fewer marks behind the offset. */
  lemma TurnKeeps(str: string, pos: nat, args: seq<string>)
    requires MarkerAt(str, pos) && forall a :: a in args ==> Harmless(a)
    ensures var t, meaning := TurnAt(str, pos, args), Join(str[..pos], Substituted(str[pos..], args));
            if t.Finished? then t.r == meaning
            else
              && Join(t.str[..t.offset], Substituted(t.str[t.offset..], args)) == meaning
              && Marks(t.str[t.offset..]) < Marks(str[pos..])
  {
    hide Substituted, Join, Harmless, Marks;
    var front, tail := str[..pos], str[pos..];
    assert MarkerAt(tail, 0) && tail[4..] == str[pos + 4..];
    var n := Digits(tail[4..]);
    assert tail[4..4 + n] == tail[4..][..n] && tail[4 + n..] == str[pos + 4 + n..];
    if n == 0 && pos + 4 < |str| {
      MarkerKept(tail, front, args);
      assert str[..pos + 4] == front + "%arg";
    } else if n == 0 || Number(tail[4..4 + n]) > INT_MAX {
      NumberThrows(tail, front, args);
    } else {
      NumberFilled(tail, front, args);
      var arg := Argument(args, Number(tail[4..4 + n]));
      var str' := front + arg + str[pos + 4 + n..];
      assert str'[..pos] == front && str'[pos..] == arg + tail[4 + n..];
    }
  }

  lemma {:induction false} HarmlessStopsFrom(str: string, offset: nat, args: seq<string>, n: nat)
    requires offset <= |str| && Marks(str[offset..]) < n && forall a :: a in args ==> Harmless(a)
    ensures StopsIn(str, offset, args, n)
    ensures Result(str, offset, args, n) == Join(str[..offset], Substituted(str[offset..], args))
    decreases n
  {
    hide Substituted, Join, Harmless, Marks, TurnAt, FirstMarker;
    var pos := FirstMarker(str, offset);
    if pos == -1 {
      NoMarkerLeft(str, offset, args);
    } else {
      MarkerLeft(str, offset, pos, args);
      TurnKeeps(str, pos, args);
      var t := TurnAt(str, pos, args);
      if t.More? {
        HarmlessStopsFrom(t.str, t.offset, args, n - 1);
      }
    }
  }

  /** With arguments that neither contain nor begin a marker the loop ends, and it is one reading of
      the text from left to right. */
  lemma HarmlessStops(msg: string, args: seq<string>)
    requires forall a :: a in args ==> Harmless(a)
    ensures StopsIn(msg, 0, args, Marks(msg) + 1)
    ensures Result(msg, 0, args, Marks(msg) + 1) == Substituted(msg, args)
  {
    hide Substituted, Join, Harmless, Marks, StopsIn, Result;
    assert msg[0..] == msg && msg[..0] == "";
    HarmlessStopsFrom(msg, 0, args, Marks(msg) + 1);
    JoinJoin("", "", Substituted(msg, args));
  }

  /** An argument that asks for itself is put in again and again. */
  lemma {:induction false} SelfArgumentNeverStops(n: nat)
    ensures !StopsIn("%arg0", 0, ["%arg0"], n)
  {
    if n > 0 {
      var s := "%arg0";
      assert MarkerAt(s, 0) && FirstMarker(s, 0) == 0;
      assert s[4..] == "0" && Digits("0") == 1 && Number("0") == 0;
      assert s[..0] + "%arg0" + s[5..] == s;
      assert Turn(s, 0, ["%arg0"]) == More(s, 0);
      SelfArgumentNeverStops(n - 1);
    }
  }

  // ---------- Templates ----------

  datatype Part = Plain(text: string) | Arg(k: nat)

  function Decimal(k: nat): string {
    (if k < 10 then "" else Decimal(k / 10)) + [('0' as int + k % 10) as char]
  }

  lemma {:induction false} NumberOfDecimal(k: nat)
    ensures Decimal(k) != "" && (forall i :: 0 <= i < |Decimal(k)| ==> IsDigit(Decimal(k)[i]))
    ensures Number(Decimal(k)) == k
  {
    var d := Decimal(k);
    if k >= 10 {
      NumberOfDecimal(k / 10);
      assert d[..|d| - 1] == Decimal(k / 10);
    } else {
      assert d[..|d| - 1] == "";
    }
  }

  lemma {:induction false} DigitsOf(d: string, rest: string)
    requires forall i :: 0 <= i < |d| ==> IsDigit(d[i])
    requires rest == "" || !IsDigit(rest[0])
    ensures Digits(d + rest) == |d|
  {
    if d == "" {
      assert d + rest == rest;
    } else {
      DigitsOf(d[1..], rest);
      assert (d + rest)[1..] == d[1..] + rest;
    }
  }

  function Template(parts: seq<Part>): string {
    if parts == [] then ""
    else match parts[0]
      case Plain(text) => text + Template(parts[1..])
      case Arg(k) => "%arg" + (Decimal(k) + Template(parts[1..]))
  }

  function Expanded(parts: seq<Part>, args: seq<string>): string {
    if parts == [] then ""
    else
      var part := match parts[0] case Plain(text) => text case Arg(k) => if k < |args| then args[k] else "";
      part + Expanded(parts[1..], args)
  }

  /** The texts are free of markers, the numbers fit an `int`, and no text behind a number starts with a digit. */
  predicate WellFormed(parts: seq<Part>) {
    && (forall i :: 0 <= i < |parts| ==> match parts[i] case Plain(text) => Harmless(text) case Arg(k) => k <= INT_MAX)
    && (forall i :: 0 <= i < |parts| && parts[i].Arg? ==>
          Template(parts[i + 1..]) == "" || !IsDigit(Template(parts[i + 1..])[0]))
  }

  lemma WellFormedTail(parts: seq<Part>)
    requires WellFormed(parts) && parts != []
    ensures WellFormed(parts[1..])
  {
    hide Template, Harmless;
    forall i | 0 <= i < |parts[1..]| && parts[1..][i].Arg?
      ensures Template(parts[1..][i + 1..]) == "" || !IsDigit(Template(parts[1..][i + 1..])[0])
    {
      assert parts[1..][i] == parts[i + 1] && parts[1..][i + 1..] == parts[i + 2..];
    }
  }

  lemma NumberSubstituted(s: string, args: seq<string>)
    requires MarkerAt(s, 0) && Digits(s[4..]) > 0
    ensures var n := Digits(s[4..]);
            var k := Number(s[4..4 + n]);
            Substituted(s, args) ==
            if k <= INT_MAX then Join(Argument(args, k), Substituted(s[4 + n..], args)) else Throws
  {
  }

  /** A marker with a number: up to 2^31 - 1 its argument is put in, and beyond the conversion throws. */
  lemma ArgumentFilled(k: nat, rest: string, args: seq<string>)
    requires rest == "" || !IsDigit(rest[0])
    ensures Substituted("%arg" + (Decimal(k) + rest), args) ==
            if k <= 2147483647 then Join(if k < |args| then args[k] else "", Substituted(rest, args)) else Throws
  {
    hide Substituted, Number, Digits, Decimal, Join, IsDigit;
    var d := Decimal(k);
    var s := "%arg" + (d + rest);
    NumberOfDecimal(k);
    DigitsOf(d, rest);
    assert s[4..] == d + rest && s[4..4 + |d|] == d && s[4 + |d|..] == rest;
    NumberSubstituted(s, args);
  }

  /** Every argument of a template is put where its number stands, and the texts around stay. */
  lemma {:induction false} TemplateExpands(parts: seq<Part>, args: seq<string>)
    requires WellFormed(parts)
    ensures Substituted(Template(parts), args) == Filled(Expanded(parts, args))
  {
    if parts != [] {
      hide Substituted, WellFormed, Decimal;
      var left := parts[1..];
      WellFormedTail(parts);
      TemplateExpands(left, args);
      PartWellFormed(parts);
      match parts[0]
      case Plain(text) => HarmlessPrefix(text, Template(left), args);
      case Arg(k) => ArgumentFilled(k, Template(left), args);
    }
  }

  lemma PartWellFormed(parts: seq<Part>)
    requires WellFormed(parts) && parts != []
    ensures match parts[0]
            case Plain(text) => Harmless(text)
            case Arg(k) => k <= INT_MAX && (Template(parts[1..]) == "" || !IsDigit(Template(parts[1..])[0]))
  {
  }

  /** A marker at the very end has no number, and the conversion of nothing throws. */
  lemma MarkerAtEndThrows(text: string, args: seq<string>)
    requires Harmless(text)
    ensures Substituted(text + "%arg", args) == Throws
  {
    HarmlessPrefix(text, "%arg", args);
  }
}
