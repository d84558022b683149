/** The message catalogue: its tokenizer, its escapes, and the loading of a translation. */
module Catalogue {

  datatype Token = MsgId | MsgStr | Text | Eof | Endless | PastEnd

  /** One call of `read`: the token, the string it leaves, and the text still to be read. */
  datatype Scan = Scan(token: Token, str: string, rest: string)

  datatype Quote = Closed(text: string, rest: string) | Open

  // ---------- What the tokenizer reads ----------

  predicate IsWs(c: char) {
    c == ' ' || c == '\t' || c == '\r' || c == '\n'
  }

  predicate IsLower(c: char) {
    'a' <= c <= 'z'
  }

  function SkipWs(s: string): (r: string)
    ensures |r| <= |s|
    ensures r == "" || !IsWs(r[0])
  {
    if s != "" && IsWs(s[0]) then SkipWs(s[1..]) else s
  }

  /** What stands before the closing quote, escapes untouched, and what comes behind it. */
  function Quoted(s: string): (q: Quote)
    ensures q.Closed? ==> |q.rest| < |s|
  {
    if s == "" then Open
    else if s[0] == '"' then Closed("", s[1..])
    else
      var n := if s[0] == '\\' then 2 else 1;
      if n > |s| then Open
      else match Quoted(s[n..])
        case Closed(text, rest) => Closed(s[..n] + text, rest)
        case Open => Open
  }

  /** One or more literals in a row, joined. */
  function Literals(s: string): (q: Quote)
    requires s != "" && s[0] == '"'
    ensures q.Closed? ==> |q.rest| < |s|
    decreases |s|
  {
    match Quoted(s[1..])
    case Open => Open
    case Closed(text, behind) =>
      var rest := SkipWs(behind);
      if rest == "" || rest[0] != '"' then Closed(text, rest)
      else match Literals(rest)
        case Closed(more, end) => Closed(text + more, end)
        case Open => Open
  }

  function WordLength(s: string): (n: nat)
    ensures n <= |s| && (forall i :: 0 <= i < n ==> IsLower(s[i])) && (n < |s| ==> !IsLower(s[n]))
  {
    if s != "" && IsLower(s[0]) then 1 + WordLength(s[1..]) else 0
  }

  function Keyword(s: string): (r: Scan)
    ensures |r.rest| <= |s| && (r.token != Eof ==> |r.rest| < |s|)
  {
    var n := WordLength(s);
    if n < |s| && s[..n] == "msgid" then Scan(MsgId, "", s[n..])
    else if n < |s| && s[..n] == "msgstr" then Scan(MsgStr, "", s[n..])
    else Scan(Eof, "", "")
  }

  /** `read`, on the text that is left. A text of nothing but white space is read past its end. */
  function NextToken(s: string): (r: Scan)
    ensures |r.rest| <= |s| && (r.token == MsgId ==> |r.rest| < |s|)
  {
    if s == "" then Scan(Eof, "", s)
    else
      var w := SkipWs(s);
      if w == "" then Scan(PastEnd, "", w)
      else if w[0] == '"' then
        match Literals(w)
        case Closed(text, rest) => Scan(Text, text, rest)
        case Open => Scan(Endless, "", w)
      else if IsLower(w[0]) then Keyword(w)
      else Scan(Eof, "", w)
  }

  lemma {:induction false} WholeWord(s: string)
    requires forall i :: 0 <= i < |s| ==> 'a' <= s[i] <= 'z'
    ensures WordLength(s) == |s|
  {
    if s != "" {
      WholeWord(s[1..]);
    }
  }

  /** A word that ends the file is no keyword, whatever word it is. */
  lemma WordAtEnd(s: string)
    requires s != "" && forall i :: 0 <= i < |s| ==> 'a' <= s[i] <= 'z'
    ensures NextToken(s) == Scan(Eof, "", "")
  {
    WholeWord(s);
  }

  /** Nor is any other sign than a quote or a letter a token. */
  lemma OtherSign(s: string)
    requires s != "" && s[0] !in {' ', '\t', '\r', '\n', '"'} && !('a' <= s[0] <= 'z')
    ensures NextToken(s) == Scan(Eof, "", s)
  {
  }

  function Prepend(text: string, q: Quote): Quote {
    match q
    case Closed(more, rest) => Closed(text + more, rest)
    case Open => Open
  }

  lemma QuotedPrepend(a: string, b: string, q: Quote)
    ensures Prepend(a, Prepend(b, q)) == Prepend(a + b, q)
    ensures Prepend("", q) == q
  {
    assert q.Closed? ==> a + (b + q.text) == (a + b) + q.text;
  }

  lemma QuotedAt(d: string, i: nat)
    requires i < |d|
    ensures d[i] == '"' ==> Quoted(d[i..]) == Closed("", d[i + 1..])
    ensures d[i] != '"' && d[i] != '\\' ==> Quoted(d[i..]) == Prepend([d[i]], Quoted(d[i + 1..]))
    ensures d[i] == '\\' && i + 1 < |d| ==> Quoted(d[i..]) == Prepend(['\\', d[i + 1]], Quoted(d[i + 2..]))
  {
    var s := d[i..];
    assert s[1..] == d[i + 1..] && s[..1] == [d[i]];
    if i + 1 < |d| {
      assert s[2..] == d[i + 2..] && s[..2] == [d[i], d[i + 1]];
    }
  }

  lemma PrependOpen(seen: string)
    ensures Prepend(seen, Open) == Open
  {
  }

  lemma QuotedClosed(seen: string, rest: string)
    ensures Prepend(seen, Closed("", rest)) == Closed(seen, rest)
  {
  }

  lemma QuotedOpen(d: string, i: nat, seen: string)
    requires i == |d| || (i + 1 == |d| && d[i] == '\\')
    ensures Prepend(seen, Quoted(d[i..])).Open?
  {
  }

  lemma LiteralsTurn(s: string)
    requires s != "" && s[0] == '"'
    ensures Quoted(s[1..]).Open? ==> Literals(s).Open?
    ensures Quoted(s[1..]).Closed? ==>
              var rest := SkipWs(Quoted(s[1..]).rest);
              && |rest| < |s|
              && Literals(s) == Prepend(Quoted(s[1..]).text,
                                        if rest == "" || rest[0] != '"' then Closed("", rest) else Literals(rest))
  {
    hide Quoted, SkipWs;
    if Quoted(s[1..]).Closed? {
      var text := Quoted(s[1..]).text;
      assert text + "" == text;
    }
  }

  const BYTE_ORDER_MARK: string := "\U{EF}\U{BB}\U{BF}"

  /** What the tokenizer takes for the file. Behind a byte order mark its end pointer lies three bytes
      too far, and the bytes that happen to stand there belong to the text. */
  function Visible(file: string, beyond: string): string {
    if |file| > 3 && file[..3] == BYTE_ORDER_MARK then file[3..] + beyond else file
  }

  class Tokenizer {
    const data: string
    var readPtr: nat
    var str: string

    ghost predicate Valid()
      reads this
    {
      readPtr <= |data|
    }

    constructor (file: string, beyond: string)
      requires |beyond| == 3
      ensures Valid() && data == Visible(file, beyond) && readPtr == 0 && str == ""
    {
      var start := if |file| > 3 && file[0] == '\U{EF}' && file[1] == '\U{BB}' && file[2] == '\U{BF}' then 3 else 0;
      assert start == 3 ==> file[..3] == BYTE_ORDER_MARK;
      data := file[start..] + if start == 3 then beyond else "";
      readPtr, str := 0, "";
    }

    method EatWs()
      requires Valid()
      modifies this`readPtr
      ensures Valid() && data[readPtr..] == SkipWs(data[old(readPtr)..])
      ensures old(readPtr) <= readPtr
      ensures forall k | old(readPtr) <= k < readPtr :: data[k] in {' ', '\t', '\r', '\n'}
      ensures readPtr < |data| ==> data[readPtr] !in {' ', '\t', '\r', '\n'}
    {
      var i := readPtr;
      while i < |data|
        invariant readPtr <= i <= |data|
        invariant forall k | readPtr <= k < i :: data[k] in {' ', '\t', '\r', '\n'}
        invariant SkipWs(data[i..]) == SkipWs(data[readPtr..])
      {
        if !IsWs(data[i]) {
          readPtr := i;
          return;
        }
        assert data[i..][1..] == data[i + 1..];
        i := i + 1;
      }
      readPtr := |data|;
    }

    /** One turn over a literal; false when its closing quote is missing, and then the pointer has not moved. */
    method ReadQuoted() returns (reachRightQuota: bool)
      requires Valid() && readPtr < |data|
      modifies this
      ensures Valid() && reachRightQuota == Quoted(data[old(readPtr) + 1..]).Closed?
      ensures match Quoted(data[old(readPtr) + 1..])
              case Closed(text, rest) => str == old(str) + text && data[readPtr..] == rest
              case Open => readPtr == old(readPtr)
    {
      hide Quoted, Prepend;
      var escape := false;
      var i := readPtr + 1;
      ghost var seen := "";
      QuotedPrepend("", "", Quoted(data[i..]));
      while i < |data|
        invariant readPtr == old(readPtr) < i <= |data| && str == old(str) + seen
        invariant escape ==> readPtr + 1 < i && data[i - 1] == '\\'
        invariant Quoted(data[readPtr + 1..]) == Prepend(seen, Quoted(data[if escape then i - 1 else i..]))
      {
        if escape {
          escape := false;
          QuotedAt(data, i - 1);
          QuotedPrepend(seen, ['\\', data[i]], Quoted(data[i + 1..]));
          seen := seen + ['\\', data[i]];
          str := str + ['\\'];
          str := str + [data[i]];
          assert str == old(str) + seen;
        } else if data[i] == '"' {
          QuotedAt(data, i);
          QuotedClosed(seen, data[i + 1..]);
          readPtr := i + 1;
          return true;
        } else if data[i] != '\\' {
          QuotedAt(data, i);
          QuotedPrepend(seen, [data[i]], Quoted(data[i + 1..]));
          seen := seen + [data[i]];
          str := str + [data[i]];
          assert str == old(str) + seen;
        } else {
          escape := true;
        }
        i := i + 1;
      }
      QuotedOpen(data, if escape then i - 1 else i, seen);
      return false;
    }

    method Read() returns (token: Token)
      requires Valid()
      modifies this
      ensures Valid()
      ensures var r := NextToken(data[old(readPtr)..]);
              && token == r.token
              && (token != Endless ==> data[readPtr..] == r.rest)
              && (token != Endless ==> str == if old(readPtr) == |data| then old(str) else r.str)
    {
      if readPtr == |data| {
        return Eof;
      }
      str := "";
      EatWs();
      if readPtr == |data| {
        return PastEnd;
      }
      if data[readPtr] == '"' {
        token := ReadLiterals();
      } else if IsLower(data[readPtr]) {
        token := ReadKeyword();
      } else {
        token := Eof;
      }
    }

    method ReadLiterals() returns (token: Token)
      requires Valid() && readPtr < |data| && data[readPtr] == '"' && str == ""
      modifies this
      ensures Valid()
      ensures match Literals(data[old(readPtr)..])
              case Closed(text, rest) => token == Text && str == text && data[readPtr..] == rest
              case Open => token == Endless
    {
      hide Quoted, Literals, SkipWs, Prepend;
      ghost var start := data[readPtr..];
      QuotedPrepend("", "", Literals(start));
      while true
        invariant Valid() && readPtr < |data| && data[readPtr] == '"'
        invariant Literals(start) == Prepend(str, Literals(data[readPtr..]))
        decreases |data| - readPtr
      {
        ghost var s := data[readPtr..];
        ghost var seen := str;
        assert s[1..] == data[readPtr + 1..];
        LiteralsTurn(s);
        PrependOpen(seen);
        var reachRightQuota := ReadQuoted();
        if !reachRightQuota {
          // The pointer still stands on the same opening quote, so the next turn is this one again.
          return Endless;
        }
        EatWs();
        ghost var text, rest := Quoted(s[1..]).text, data[readPtr..];
        if readPtr == |data| || data[readPtr] != '"' {
          QuotedPrepend(seen, text, Closed("", rest));
          QuotedClosed(seen + text, rest);
          break;
        }
        QuotedPrepend(seen, text, Literals(rest));
      }
      return Text;
    }

    method ReadKeyword() returns (token: Token)
      requires Valid() && readPtr < |data| && str == ""
      modifies this`readPtr
      ensures Valid() && Scan(token, str, data[readPtr..]) == Keyword(data[old(readPtr)..])
    {
      ghost var s := data[readPtr..];
      var i := readPtr;
      while i < |data|
        invariant readPtr == old(readPtr) <= i <= |data|
        invariant WordLength(s) == i - readPtr + WordLength(data[i..])
      {
        if !IsLower(data[i]) {
          var id := data[readPtr..i];
          assert id == s[..WordLength(s)] && data[i..] == s[WordLength(s)..];
          readPtr := i;
          if id == "msgid" {
            return MsgId;
          } else if id == "msgstr" {
            return MsgStr;
          }
          break;
        }
        assert data[i..][1..] == data[i + 1..];
        i := i + 1;
      }
      readPtr := |data|;
      return Eof;
    }
  }

  // ---------- The loop over literals ----------

  /** Where the loop of `read` stands after one turn from an opening quote. */
  function Turn(s: string): string
    requires s != "" && s[0] == '"'
  {
    match Quoted(s[1..])
    case Closed(_, rest) => SkipWs(rest)
    case Open => s
  }

  /** The loop takes at least n further turns. */
  predicate Turns(s: string, n: nat)
    requires s != "" && s[0] == '"'
    decreases n
  {
    n == 0 || (Turn(s) != "" && Turn(s)[0] == '"' && Turns(Turn(s), n - 1))
  }

  lemma {:induction false} OpenTurns(s: string, n: nat)
    requires s != "" && s[0] == '"' && Literals(s).Open?
    ensures Turns(s, n)
    decreases n
  {
    if n > 0 {
      OpenTurns(Turn(s), n - 1);
    }
  }

  lemma {:induction false} ClosedStops(s: string) returns (n: nat)
    requires s != "" && s[0] == '"' && Literals(s).Closed?
    ensures !Turns(s, n)
    decreases |s|
  {
    hide Quoted, SkipWs, Literals;
    LiteralsTurn(s);
    n := 1;
    if Turns(s, 1) {
      var m := ClosedStops(Turn(s));
      n := m + 1;
    }
  }

  /** `read` never comes back from a literal whose closing quote is missing, and always from others. */
  lemma EndlessExactly(s: string)
    requires s != "" && s[0] == '"'
    ensures Literals(s).Open? <==> forall n: nat :: Turns(s, n)
  {
    if Literals(s).Open? {
      forall n: nat ensures Turns(s, n) {
        OpenTurns(s, n);
      }
    } else {
      var n := ClosedStops(s);
    }
  }

  // ---------- Escapes ----------

  /** What the character behind a backslash stands for; other pairs are kept. */
  function EscapeMeans(c: char): string {
    match c
    case '"' => "\""
    case '\\' => "\\"
    case 'n' => "\n"
    case 't' => "\t"
    case _ => ['\\', c]
  }

  function Unescaped(s: string): string {
    if s == "" then ""
    else if s[0] != '\\' || |s| == 1 then [s[0]] + Unescaped(s[1..])
    else EscapeMeans(s[1]) + Unescaped(s[2..])
  }

  /** Only four escapes are undone; of any other pair both characters stay. */
  lemma OtherEscapesStay(c: char, s: string)
    requires c != '"' && c != '\\' && c != 'n' && c != 't'
    ensures Unescaped("\\" + ([c] + s)) == "\\" + ([c] + Unescaped(s))
    ensures Unescaped("\\") == "\\"
  {
    assert ("\\" + ([c] + s))[2..] == s && Unescaped("") == "";
  }

  lemma UnescapedPair(s: string)
    requires |s| >= 2 && s[0] == '\\'
    ensures Unescaped(s) == EscapeMeans(s[1]) + Unescaped(s[2..])
  {
  }

  lemma {:induction false} UnescapedPlain(a: string, b: string)
    requires '\\' !in a
    ensures Unescaped(a + b) == a + Unescaped(b)
  {
    if a == "" {
      assert a + b == b;
    } else {
      UnescapedPlain(a[1..], b);
      assert (a + b)[1..] == a[1..] + b;
    }
  }

  method Find(s: string, c: char, from: nat) returns (pos: int)
    requires from <= |s|
    ensures pos == -1 ==> c !in s[from..]
    ensures pos != -1 ==> from <= pos < |s| && s[pos] == c && c !in s[from..pos]
  {
    pos := from;
    while pos < |s|
      invariant from <= pos <= |s| && c !in s[from..pos]
    {
      if s[pos] == c {
        return;
      }
      pos := pos + 1;
    }
    pos := -1;
  }

  function Erase(s: string, pos: nat): string
    requires pos < |s|
  {
    s[..pos] + s[pos + 1..]
  }

  /** One escape undone in place; the new position is behind it. */
  method UnescapeAt(str: string, pos: nat) returns (str': string, pos': nat)
    requires pos + 1 < |str| && str[pos] == '\\'
    ensures pos' <= |str'| && |str'| - pos' < |str| - pos
    ensures str'[..pos'] + Unescaped(str'[pos'..]) == str[..pos] + Unescaped(str[pos..])
  {
    hide Unescaped;
    var ch := str[pos + 1];
    ghost var front, behind := str[..pos], str[pos + 2..];
    assert str[pos..][2..] == behind;
    UnescapedPair(str[pos..]);
    str' := str;
    match ch {
      case '"' => str' := Erase(str', pos);
      case '\\' => str' := Erase(str', pos);
      case 'n' =>
        str' := Erase(str', pos);
        str' := str'[pos := '\n'];
      case 't' =>
        str' := Erase(str', pos);
        str' := str'[pos := '\t'];
      case _ => UnescapedPlain([ch], behind);
    }
    pos' := pos + 1;
    if EscapeMeans(ch) == ['\\', ch] {
      assert str'[..pos'] == front + ['\\'] && str'[pos'..] == [ch] + behind;
      assert front + ['\\'] + ([ch] + Unescaped(behind)) == front + (['\\', ch] + Unescaped(behind));
    } else {
      assert str'[..pos'] == front + EscapeMeans(ch) && str'[pos'..] == behind;
      assert front + EscapeMeans(ch) + Unescaped(behind) == front + (EscapeMeans(ch) + Unescaped(behind));
    }
  }

  /** The loop of `load` that undoes the escapes in place. */
  method Unescape(msg: string) returns (str: string)
    ensures str == Unescaped(msg)
  {
    hide Unescaped;
    str := msg;
    var pos: nat := 0;
    while true
      invariant pos <= |str|
      invariant str[..pos] + Unescaped(str[pos..]) == Unescaped(msg)
      decreases |str| - pos
    {
      ghost var done, left := str[..pos], str[pos..];
      var found := Find(str, '\\', pos);
      if found == -1 {
        UnescapedEnd(left);
        break;
      }
      ghost var plain, tail := str[pos..found], str[found..];
      UnescapedPlain(plain, tail);
      assert left == plain + tail && str[..found] == done + plain;
      assert done + plain + Unescaped(tail) == done + (plain + Unescaped(tail));
      if found + 1 < |str| {
        str, pos := UnescapeAt(str, found);
      } else {
        UnescapedEnd(tail);
        break;
      }
    }
  }

  lemma UnescapedEnd(s: string)
    requires '\\' !in s || s == "\\"
    ensures Unescaped(s) == s
  {
    if '\\' !in s {
      UnescapedPlain(s, "");
      assert s + "" == s;
    }
  }
}
