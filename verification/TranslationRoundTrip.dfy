/** A catalogue printed with quoted literals and escapes is what loading reads back. */
module TranslationRoundTrip {
  import opened Catalogue
  import opened Translation

  /** A quoted literal and the white space in front of it. */
  datatype Literal = Literal(gap: string, text: string)

  datatype Entry = Entry(gap: string, id: seq<Literal>, between: string, value: seq<Literal>)

  // ---------- Printing ----------

  function EscapeChar(c: char): string {
    match c
    case '"' => "\\\""
    case '\\' => "\\\\"
    case '\n' => "\\n"
    case '\t' => "\\t"
    case _ => [c]
  }

  function Escape(s: string): string {
    if s == "" then "" else EscapeChar(s[0]) + Escape(s[1..])
  }

  function Print(literals: seq<Literal>): string {
    if literals == [] then ""
    else literals[0].gap + ("\"" + (Escape(literals[0].text) + ("\"" + Print(literals[1..]))))
  }

  function Joined(literals: seq<Literal>): string {
    if literals == [] then "" else literals[0].text + Joined(literals[1..])
  }

  function PrintAll(entries: seq<Entry>, tail: string): string {
    if entries == [] then tail
    else
      var e := entries[0];
      e.gap + ("msgid" + (Print(e.id) + (e.between + ("msgstr" + (Print(e.value) + PrintAll(entries[1..], tail))))))
  }

  predicate White(s: string) {
    forall c :: c in s ==> c == ' ' || c == '\t' || c == '\r' || c == '\n'
  }

  predicate Printable(e: Entry) {
    && White(e.gap) && White(e.between) && e.id != [] && e.value != []
    && (forall l :: l in e.id ==> White(l.gap)) && (forall l :: l in e.value ==> White(l.gap))
  }

  /** The table that the entries describe; the key of an entry is its text as printed. */
  function TableOf(entries: seq<Entry>, table: Table): Table {
    if entries == [] then table
    else TableOf(entries[1..], table[Escape(Joined(entries[0].id)) := Joined(entries[0].value)])
  }

  // ---------- Escapes ----------

  lemma {:induction false} UnescapeEscape(s: string)
    ensures Unescaped(Escape(s)) == s
  {
    if s != "" {
      UnescapeEscape(s[1..]);
      var e, rest := EscapeChar(s[0]), Escape(s[1..]);
      if |e| == 2 {
        UnescapedPair(e + rest);
        assert (e + rest)[2..] == rest;
      } else {
        assert (e + rest)[1..] == rest;
      }
    }
  }

  lemma EscapeStep(s: string)
    requires s != ""
    ensures Escape(s) == EscapeChar(s[0]) + Escape(s[1..])
  {
  }

  lemma Regrouped(a: string, b: string, c: string)
    ensures a + (b + c) == (a + b) + c
  {
  }

  lemma {:induction false} EscapeJoins(a: string, b: string)
    ensures Escape(a + b) == Escape(a) + Escape(b)
  {
    if a == "" {
      assert a + b == b;
    } else {
      hide EscapeChar, Escape;
      EscapeJoins(a[1..], b);
      assert (a + b)[1..] == a[1..] + b && (a + b)[0] == a[0];
      EscapeStep(a);
      EscapeStep(a + b);
      Regrouped(EscapeChar(a[0]), Escape(a[1..]), Escape(b));
    }
  }

  predicate PlainChar(c: char) {
    c != '"' && c != '\\' && c != '\n' && c != '\t'
  }

  predicate IsPlain(s: string) {
    forall i :: 0 <= i < |s| ==> PlainChar(s[i])
  }

  lemma PlainStep(s: string)
    requires s != ""
    ensures IsPlain(s) <==> PlainChar(s[0]) && IsPlain(s[1..])
  {
    if PlainChar(s[0]) && IsPlain(s[1..]) {
      forall i | 0 <= i < |s| ensures PlainChar(s[i]) {
        assert i > 0 ==> s[i] == s[1..][i - 1];
      }
    }
  }

  /** The keys are not unescaped, so a text is its own key exactly when it has nothing to escape. */
  lemma {:induction false} KeyIsTextExactly(s: string)
    ensures |Escape(s)| >= |s| && (Escape(s) == s <==> IsPlain(s))
  {
    if s != "" {
      hide IsPlain;
      KeyIsTextExactly(s[1..]);
      PlainStep(s);
      var e, rest := EscapeChar(s[0]), Escape(s[1..]);
      assert PlainChar(s[0]) <==> |e| == 1;
      assert |e| == 1 ==> e == [s[0]] && (e + rest)[1..] == rest;
      assert s == [s[0]] + s[1..];
    } else {
      assert IsPlain(s);
    }
  }

  // ---------- Tokens of a printed catalogue ----------

  lemma {:induction false} SkipsWhite(gap: string, s: string)
    requires White(gap)
    ensures SkipWs(gap + s) == SkipWs(s)
  {
    if gap == "" {
      assert gap + s == s;
    } else {
      assert gap[0] in gap && forall c :: c in gap[1..] ==> c in gap;
      SkipsWhite(gap[1..], s);
      assert (gap + s)[1..] == gap[1..] + s;
    }
  }

  lemma QuotedFront(c: char, rest: string)
    ensures Quoted(EscapeChar(c) + rest) == Prepend(EscapeChar(c), Quoted(rest))
  {
    EscapeShape(c);
    hide EscapeChar;
    var e := EscapeChar(c);
    assert (e + rest)[|e|..] == rest && (e + rest)[..|e|] == e;
  }

  lemma EscapeShape(c: char)
    ensures var e := EscapeChar(c);
            (|e| == 1 && e[0] != '"' && e[0] != '\\') || (|e| == 2 && e[0] == '\\')
  {
  }

  lemma {:induction false} QuotedPrinted(text: string, rest: string)
    ensures Quoted(Escape(text) + ("\"" + rest)) == Closed(Escape(text), rest)
  {
    var s := Escape(text) + ("\"" + rest);
    hide Quoted, EscapeChar, Prepend;
    if text == "" {
      QuotedEnd(rest);
      assert s == "\"" + rest;
    } else {
      QuotedPrinted(text[1..], rest);
      var e, more := EscapeChar(text[0]), Escape(text[1..]);
      QuotedFront(text[0], more + ("\"" + rest));
      assert s == e + (more + ("\"" + rest));
      QuotedJoined(e, more, rest);
    }
  }

  lemma QuotedEnd(rest: string)
    ensures Quoted("\"" + rest) == Closed("", rest)
  {
    assert ("\"" + rest)[1..] == rest;
  }

  /** How a text goes on behind a literal: with another literal, or with something else. */
  function Continued(rest: string): Quote {
    var w := SkipWs(rest);
    if w == "" || w[0] != '"' then Closed("", w) else Literals(w)
  }

  /** Adjacent literals are read as one text, those that follow included. */
  lemma {:induction false} LiteralsRead(literals: seq<Literal>, rest: string)
    requires literals != [] && (forall l :: l in literals ==> White(l.gap))
    ensures var s := SkipWs(Print(literals) + rest);
            s != "" && s[0] == '"' && Literals(s) == Prepend(Escape(Joined(literals)), Continued(rest))
  {
    hide Quoted, SkipWs, Escape, Literals, White, IsWs, Prepend;
    var l, left := literals[0], literals[1..];
    var more := Print(left) + rest;
    LiteralPrinted(l, more);
    assert Print(literals) + rest == l.gap + Opened(l, more);
    if left == [] {
      assert more == rest && l.text + Joined(left) == l.text;
    } else {
      LiteralsRead(left, rest);
      EscapeJoins(l.text, Joined(left));
      QuotedPrepend(Escape(l.text), Escape(Joined(left)), Continued(rest));
    }
  }

  /** Adjacent literals are read as one text. */
  lemma LiteralsPrinted(literals: seq<Literal>, rest: string)
    requires literals != [] && (forall l :: l in literals ==> White(l.gap))
    requires SkipWs(rest) != "" ==> SkipWs(rest)[0] != '"'
    ensures var s := SkipWs(Print(literals) + rest);
            s != "" && s[0] == '"' && Literals(s) == Closed(Escape(Joined(literals)), SkipWs(rest))
  {
    hide SkipWs, Escape, Joined, Literals, Prepend, White;
    LiteralsRead(literals, rest);
    QuotedClosed(Escape(Joined(literals)), SkipWs(rest));
  }

  function Opened(l: Literal, more: string): (s: string)
    ensures s != "" && s[0] == '"'
  {
    "\"" + (Escape(l.text) + ("\"" + more))
  }

  lemma QuotedJoined(a: string, b: string, rest: string)
    ensures Prepend(a, Closed(b, rest)) == Closed(a + b, rest)
  {
  }

  lemma LiteralPrinted(l: Literal, more: string)
    requires White(l.gap)
    ensures var s := Opened(l, more);
            var rest := SkipWs(more);
            && SkipWs(l.gap + s) == s
            && |rest| < |s|
            && Literals(s) == Prepend(Escape(l.text),
                               if rest == "" || rest[0] != '"' then Closed("", rest) else Literals(rest))
  {
    hide Quoted, SkipWs, Escape, Literals, Prepend;
    var s := Opened(l, more);
    SkipsWhite(l.gap, s);
    SkipsNothing(s);
    assert s[1..] == Escape(l.text) + ("\"" + more);
    QuotedPrinted(l.text, more);
    LiteralsTurn(s);
  }

  lemma SkipsNothing(s: string)
    requires s != "" && !IsWs(s[0])
    ensures SkipWs(s) == s
  {
  }

  lemma {:induction false} WordLengthOf(word: string, rest: string)
    requires forall c :: c in word ==> IsLower(c)
    requires rest != "" && !IsLower(rest[0])
    ensures WordLength(word + rest) == |word|
  {
    if word == "" {
      assert word + rest == rest;
    } else {
      WordLengthOf(word[1..], rest);
      assert (word + rest)[1..] == word[1..] + rest;
    }
  }

  lemma KeywordPrinted(gap: string, word: string, rest: string)
    requires White(gap) && (word == "msgid" || word == "msgstr") && rest != "" && !IsLower(rest[0])
    ensures NextToken(gap + (word + rest)) == Scan(if word == "msgid" then MsgId else MsgStr, "", rest)
  {
    hide SkipWs, WordLength, Literals;
    var s := word + rest;
    SkipsWhite(gap, s);
    SkipsNothing(s);
    WordLengthOf(word, rest);
    assert s[..|word|] == word && s[|word|..] == rest;
  }

  /** Reading goes on from behind white space as from in front of it. */
  lemma TokenBehindGap(s: string)
    requires SkipWs(s) != ""
    ensures NextToken(SkipWs(s)) == NextToken(s)
  {
    hide Literals, Keyword;
    SkipsNothing(SkipWs(s));
  }

  // ---------- A printed catalogue ----------

  function PrintEntry(e: Entry, rest: string): string {
    "msgid" + (Print(e.id) + (e.between + ("msgstr" + (Print(e.value) + rest))))
  }

  lemma PrintStarts(literals: seq<Literal>, rest: string)
    requires literals != [] && White(literals[0].gap)
    ensures var s := Print(literals) + rest;
            s != "" && !IsLower(s[0])
  {
    hide Escape;
    var p, gap := Print(literals), literals[0].gap;
    assert (p + rest)[0] == p[0];
    if gap != "" {
      assert p[0] == gap[0] && gap[0] in gap && IsWs(gap[0]);
    } else {
      assert p[0] == '"';
    }
  }

  lemma TextPrinted(literals: seq<Literal>, rest: string)
    requires literals != [] && (forall l :: l in literals ==> White(l.gap))
    requires SkipWs(rest) != "" ==> SkipWs(rest)[0] != '"'
    ensures NextToken(Print(literals) + rest) == Scan(Text, Escape(Joined(literals)), SkipWs(rest))
  {
    hide SkipWs, Literals, Print, Escape, Joined, White;
    LiteralsPrinted(literals, rest);
    PrintStarts(literals, rest);
  }

  lemma WordBehindGap(gap: string, word: string, rest: string)
    requires White(gap) && (word == "msgid" || word == "msgstr") && rest != "" && !IsLower(rest[0])
    ensures SkipWs(gap + (word + rest)) == word + rest
    ensures NextToken(word + rest) == Scan(if word == "msgid" then MsgId else MsgStr, "", rest)
  {
    SkipsWhite(gap, word + rest);
    SkipsNothing(word + rest);
    KeywordPrinted("", word, rest);
    assert "" + (word + rest) == word + rest;
  }

  lemma EntryParsed(e: Entry, rest: string, table: Table)
    requires Printable(e)
    requires SkipWs(rest) != "" ==> SkipWs(rest)[0] != '"'
    ensures SkipWs(e.gap + PrintEntry(e, rest)) == PrintEntry(e, rest)
    ensures Parse(PrintEntry(e, rest), table) == Parse(SkipWs(rest), table[Escape(Joined(e.id)) := Joined(e.value)])
  {
    hide SkipWs, NextToken, Print, Escape, Joined, White;
    var s3 := Print(e.value) + rest;
    var s2 := "msgstr" + s3;
    var s1 := Print(e.id) + (e.between + s2);
    PrintStarts(e.value, rest);
    PrintStarts(e.id, e.between + s2);
    WordBehindGap(e.gap, "msgid", s1);
    WordBehindGap(e.between, "msgstr", s3);
    TextPrinted(e.id, e.between + s2);
    TextPrinted(e.value, rest);
    UnescapeEscape(Joined(e.value));
  }

  lemma SkipsAll(tail: string)
    requires White(tail)
    ensures SkipWs(tail) == ""
  {
    SkipsWhite(tail, "");
    assert tail + "" == tail;
  }

  lemma PrintAllIs(entries: seq<Entry>, tail: string)
    requires entries != []
    ensures PrintAll(entries, tail) == entries[0].gap + PrintEntry(entries[0], PrintAll(entries[1..], tail))
  {
  }

  lemma PrintEntryStarts(e: Entry, rest: string)
    ensures PrintEntry(e, rest) != "" && PrintEntry(e, rest)[0] == 'm'
  {
  }

  lemma {:induction false} PrintAllAppends(entries: seq<Entry>, tail: string, more: string)
    ensures PrintAll(entries, tail) + more == PrintAll(entries, tail + more)
  {
    if entries != [] {
      hide PrintEntry;
      var rest := PrintAll(entries[1..], tail);
      PrintAllAppends(entries[1..], tail, more);
      PrintAllIs(entries, tail);
      PrintAllIs(entries, tail + more);
      PrintEntryAppends(entries[0], rest, more);
      assert entries[0].gap + PrintEntry(entries[0], rest) + more ==
          entries[0].gap + (PrintEntry(entries[0], rest) + more);
    }
  }

  lemma PrintEntryAppends(e: Entry, rest: string, more: string)
    ensures PrintEntry(e, rest) + more == PrintEntry(e, rest + more)
  {
    var a, b := Print(e.id), Print(e.value);
    assert ("msgid" + (a + (e.between + ("msgstr" + (b + rest))))) + more
        == "msgid" + (a + (e.between + ("msgstr" + (b + (rest + more)))));
  }

  lemma ShortIsQuiet(w: string)
    requires w != "" && |w| < 5 && !IsWs(w[0]) && w[0] != '"'
    ensures NextToken(w).token == Eof
  {
    SkipsNothing(w);
  }

  /** What becomes of printed entries in front of any text; the last value may go on there. */
  function InFront(entries: seq<Entry>, rest: string, table: Table): Outcome
    requires entries != []
  {
    var key, value := Escape(Joined(entries[0].id)), Joined(entries[0].value);
    if |entries| > 1 then InFront(entries[1..], rest, table[key := value])
    else match Continued(rest)
      case Open => NeverEnds
      case Closed(more, end) => Parse(end, table[key := Unescaped(Escape(value) + more)])
  }

  lemma ValueRead(literals: seq<Literal>, rest: string)
    requires literals != [] && (forall l :: l in literals ==> White(l.gap))
    ensures match Continued(rest)
            case Open => NextToken(Print(literals) + rest).token == Endless
            case Closed(more, end) =>
              NextToken(Print(literals) + rest) == Scan(Text, Escape(Joined(literals)) + more, end)
  {
    hide SkipWs, Literals, Print, Escape, Joined, White, Continued;
    LiteralsRead(literals, rest);
    PrintStarts(literals, rest);
  }

  lemma LastRead(e: Entry, rest: string, table: Table)
    requires Printable(e)
    ensures Parse(PrintEntry(e, rest), table) == InFront([e], rest, table)
  {
    hide SkipWs, NextToken, Print, Escape, Joined, White, Continued, Unescaped;
    var s3 := Print(e.value) + rest;
    var s2 := "msgstr" + s3;
    PrintStarts(e.value, rest);
    PrintStarts(e.id, e.between + s2);
    WordBehindGap(e.gap, "msgid", Print(e.id) + (e.between + s2));
    WordBehindGap(e.between, "msgstr", s3);
    TextPrinted(e.id, e.between + s2);
    ValueRead(e.value, rest);
  }

  lemma {:induction false} EntriesRead(entries: seq<Entry>, rest: string, table: Table)
    requires entries != [] && forall e :: e in entries ==> Printable(e)
    ensures var s := SkipWs(PrintAll(entries, rest));
            s != "" && s[0] == 'm' && Parse(s, table) == InFront(entries, rest, table)
  {
    hide SkipWs, Printable, PrintEntry, Escape, Joined, Continued, Unescaped;
    var e, left := entries[0], entries[1..];
    var behind := PrintAll(left, rest);
    PrintAllIs(entries, rest);
    PrintEntryStarts(e, behind);
    GapSkipped(e, behind);
    if left == [] {
      LastRead(e, rest, table);
      assert entries == [e];
    } else {
      EntriesRead(left, rest, table[Escape(Joined(e.id)) := Joined(e.value)]);
      EntryParsed(e, behind, table);
    }
  }

  lemma GapSkipped(e: Entry, rest: string)
    requires Printable(e)
    ensures SkipWs(e.gap + PrintEntry(e, rest)) == PrintEntry(e, rest)
  {
    hide PrintEntry;
    PrintEntryStarts(e, rest);
    SkipsWhite(e.gap, PrintEntry(e, rest));
    SkipsNothing(PrintEntry(e, rest));
  }

  /** At most three bytes behind the buffer leave the last text as it is: none of them is a quote in
      front, or the first two are an empty literal with no quote behind it. */
  predicate LeavesLast(beyond: string) {
    var w := SkipWs(beyond);
    w == "" || w[0] != '"' || (|w| >= 2 && w[1] == '"' && (|w| == 2 || w[2] != '"'))
  }

  /** What a quote and at most two more bytes are read as. */
  lemma ShortLiteral(w: string)
    requires 1 <= |w| <= 3 && w[0] == '"'
    ensures Literals(w) ==
            if |w| == 1 then Open
            else if w[1] == '"' then
              (if |w| == 2 then Closed("", "") else if w[2] == '"' then Open else Closed("", SkipWs([w[2]])))
            else if |w| == 3 && w[1] != '\\' && w[2] == '"' then Closed([w[1]], "")
            else Open
  {
    if |w| == 2 {
      assert w[1..] == [w[1]] && w[1..][1..] == "";
    } else if |w| == 3 {
      assert w[1..] == [w[1], w[2]] && w[1..][1..] == [w[2]] && w[1..][2..] == "" && [w[2]][1..] == "";
      assert w[1..][..1] == [w[1]];
      if w[1] == '"' && w[2] == '"' {
        ShortLiteral([w[2]]);
        assert SkipWs([w[2]]) == [w[2]];
      } else if w[1] == '"' {
        assert Quoted(w[1..]) == Closed("", [w[2]]);
        assert SkipWs([w[2]]) == "" || SkipWs([w[2]]) == [w[2]];
      } else if w[1] != '\\' {
        assert Quoted([w[2]]) == if w[2] == '"' then Closed("", "") else Open;
        assert Quoted(w[1..]) == Prepend([w[1]], Quoted([w[2]]));
        assert [w[1]] + "" == [w[1]];
      }
    }
  }

  lemma {:induction false} UnescapedGrown(s: string, c: char)
    requires c != '\\'
    ensures Unescaped(Escape(s) + [c]) == s + [c]
  {
    if s == "" {
      assert Escape(s) + [c] == [c] && [c][1..] == "" && s + [c] == [c];
    } else {
      hide Unescaped, EscapeChar;
      UnescapedGrown(s[1..], c);
      var e, rest := EscapeChar(s[0]), Escape(s[1..]) + [c];
      assert Escape(s) + [c] == e + rest;
      UnescapedFront(s[0], rest);
      assert s + [c] == [s[0]] + (s[1..] + [c]);
    }
  }

  lemma UnescapedFront(c: char, rest: string)
    ensures Unescaped(EscapeChar(c) + rest) == [c] + Unescaped(rest)
  {
    var e := EscapeChar(c);
    if |e| == 2 {
      UnescapedPair(e + rest);
      assert (e + rest)[2..] == rest;
    } else {
      assert (e + rest)[1..] == rest;
    }
  }

  /** Entries in front of a text that adds nothing to the last of them. */
  lemma {:induction false} InFrontOfQuiet(entries: seq<Entry>, rest: string, table: Table, end: string)
    requires entries != [] && Continued(rest) == Closed("", end)
    requires end == "" || (|end| < 5 && !IsWs(end[0]) && end[0] != '"')
    ensures InFront(entries, rest, table) == Done(TableOf(entries, table))
  {
    var key, value := Escape(Joined(entries[0].id)), Joined(entries[0].value);
    hide Continued, Joined, Escape;
    if |entries| > 1 {
      InFrontOfQuiet(entries[1..], rest, table[key := value], end);
    } else {
      assert Escape(value) + "" == Escape(value);
      UnescapeEscape(value);
      assert entries[1..] == [];
      if end != "" {
        ShortIsQuiet(end);
      }
    }
  }

  /** Entries in front of a character that the last value takes in. */
  lemma {:induction false} InFrontOfGrowth(entries: seq<Entry>, rest: string, table: Table, c: char)
    requires entries != [] && Continued(rest) == Closed([c], "") && c != '\\'
    ensures var last := entries[|entries| - 1];
            var r := InFront(entries, rest, table);
            r.Done? && Escape(Joined(last.id)) in r.table &&
              r.table[Escape(Joined(last.id))] == Joined(last.value) + [c]
  {
    var key, value := Escape(Joined(entries[0].id)), Joined(entries[0].value);
    hide Continued, Joined, Escape;
    if |entries| > 1 {
      InFrontOfGrowth(entries[1..], rest, table[key := value], c);
    } else {
      UnescapedGrown(value, c);
    }
  }

  lemma {:induction false} InFrontOfOpen(entries: seq<Entry>, rest: string, table: Table)
    requires entries != [] && Continued(rest) == Open
    ensures InFront(entries, rest, table) == NeverEnds
  {
    hide Continued, Joined, Escape;
    if |entries| > 1 {
      InFrontOfOpen(entries[1..], rest, table[Escape(Joined(entries[0].id)) := Joined(entries[0].value)]);
    }
  }

  lemma MarkedOutcome(entries: seq<Entry>, rest: string, table: Table)
    requires entries != [] && |SkipWs(rest)| <= 3
    ensures InFront(entries, rest, table) == Done(TableOf(entries, table)) <==> LeavesLast(rest)
  {
    hide TableOf, InFront, Literals, Escape, Joined;
    var w := SkipWs(rest);
    if w == "" || w[0] != '"' {
      InFrontOfQuiet(entries, rest, table, w);
    } else {
      ShortLiteral(w);
      match Continued(rest) {
        case Open => InFrontOfOpen(entries, rest, table);
        case Closed(more, end) =>
          if more == "" {
            assert |w| == 3 ==> end == SkipWs([w[2]]);
            InFrontOfQuiet(entries, rest, table, end);
          } else {
            InFrontOfGrowth(entries, rest, table, w[1]);
            LastEntryDecides(entries, table, |entries| - 1);
          }
      }
    }
  }

  /** Loading a printed catalogue gives the table it was printed from, whatever white space is
      between the tokens and however the texts are cut into literals. */
  lemma LoadPrinted(entries: seq<Entry>, tail: string, defaults: Table)
    requires (forall e :: e in entries ==> Printable(e)) && White(tail)
    requires entries != []
    ensures Parse(PrintAll(entries, tail), defaults) == Done(TableOf(entries, defaults))
  {
    hide Printable, TableOf, InFront, Parse, PrintAll, White;
    EntriesRead(entries, tail, defaults);
    ParseBehindGap(PrintAll(entries, tail), defaults);
    SkipsAll(tail);
    InFrontOfQuiet(entries, tail, defaults, "");
  }

  /** A printed catalogue behind a byte order mark gives the table it was printed from exactly when the
      three bytes behind the buffer leave the last text as it is. */
  lemma LoadMarked(entries: seq<Entry>, tail: string, beyond: string, defaults: Table)
    requires (forall e :: e in entries ==> Printable(e)) && White(tail) && entries != [] && |beyond| == 3
    ensures Parse(Visible(BYTE_ORDER_MARK + PrintAll(entries, tail), beyond), defaults) ==
            Done(TableOf(entries, defaults))
            <==> LeavesLast(beyond)
  {
    MarkedVisible(entries, tail, beyond);
    hide SkipWs, Printable, TableOf, InFront, Parse, Visible, PrintAll, White;
    EntriesRead(entries, tail + beyond, defaults);
    ParseBehindGap(PrintAll(entries, tail + beyond), defaults);
    SkipsWhite(tail, beyond);
    MarkedOutcome(entries, tail + beyond, defaults);
  }

  lemma ParseBehindGap(s: string, table: Table)
    requires SkipWs(s) != ""
    ensures Parse(SkipWs(s), table) == Parse(s, table)
  {
    hide SkipWs, NextToken;
    TokenBehindGap(s);
  }

  lemma MarkedVisible(entries: seq<Entry>, tail: string, beyond: string)
    requires entries != []
    ensures Visible(BYTE_ORDER_MARK + PrintAll(entries, tail), beyond) == PrintAll(entries, tail + beyond)
  {
    hide PrintAll, PrintEntry;
    var text := PrintAll(entries, tail);
    var file := BYTE_ORDER_MARK + text;
    assert file[..3] == BYTE_ORDER_MARK && file[3..] == text;
    PrintAllIs(entries, tail);
    PrintEntryStarts(entries[0], PrintAll(entries[1..], tail));
    PrintAllAppends(entries, tail, beyond);
  }

  /** Without entries the white space matters: an empty text is an empty catalogue, any other is read past its end. */
  lemma LoadBlank(tail: string, defaults: Table)
    requires White(tail)
    ensures Parse(tail, defaults) == if tail == "" then Done(defaults) else ReadsPastEnd
  {
    SkipsAll(tail);
  }

  /** A file that is nothing but a byte order mark is an empty catalogue. */
  lemma LoadMarkAlone(beyond: string, defaults: Table)
    requires |beyond| == 3
    ensures Visible("\U{EF}\U{BB}\U{BF}", beyond) == "\U{EF}\U{BB}\U{BF}"
    ensures Parse("\U{EF}\U{BB}\U{BF}", defaults) == Done(defaults)
  {
    OtherSign("\U{EF}\U{BB}\U{BF}");
  }

  /** An entry whose id is not followed by the second keyword has the whole file refused. */
  lemma BrokenEntryRefused(gap: string, id: seq<Literal>, between: string, rest: string, table: Table)
    requires White(gap) && White(between) && id != [] && forall l :: l in id ==> White(l.gap)
    requires rest != "" && rest[0] !in {' ', '\t', '\r', '\n', '"'} && !('a' <= rest[0] <= 'z')
    ensures Parse(gap + ("msgid" + (Print(id) + (between + rest))), table) == Refused
  {
    hide NextToken, SkipWs, Print;
    SkipsWhite(between, rest);
    SkipsNothing(rest);
    PrintStarts(id, between + rest);
    KeywordPrinted(gap, "msgid", Print(id) + (between + rest));
    TextPrinted(id, between + rest);
    OtherSign(rest);
  }

  // ---------- What a translation gives ----------

  /** The last entry for a key decides. */
  lemma {:induction false} LastEntryDecides(entries: seq<Entry>, table: Table, k: nat)
    requires k < |entries|
    requires forall j :: k < j < |entries| ==> Escape(Joined(entries[j].id)) != Escape(Joined(entries[k].id))
    ensures var key := Escape(Joined(entries[k].id));
            key in TableOf(entries, table) && TableOf(entries, table)[key] == Joined(entries[k].value)
  {
    hide Escape, Joined;
    var t := table[Escape(Joined(entries[0].id)) := Joined(entries[0].value)];
    if k > 0 {
      LastEntryDecides(entries[1..], t, k - 1);
    } else {
      OtherKeysKept(entries[1..], t, Escape(Joined(entries[0].id)));
    }
  }

  lemma {:induction false} OtherKeysKept(entries: seq<Entry>, table: Table, key: string)
    requires forall e :: e in entries ==> Escape(Joined(e.id)) != key
    ensures key in TableOf(entries, table) <==> key in table
    ensures key in table ==> TableOf(entries, table)[key] == table[key]
  {
    hide Escape, Joined;
    if entries != [] {
      OtherKeysKept(entries[1..], table[Escape(Joined(entries[0].id)) := Joined(entries[0].value)], key);
    }
  }

  /** After a load every plain text that the catalogue translates, and not by an empty text, is
      shown as its last translation there. */
  lemma TranslationFound(entries: seq<Entry>, tail: string, defaults: Table, current: Table, k: nat)
    requires (forall e :: e in entries ==> Printable(e)) && White(tail)
    requires k < |entries| && IsPlain(Joined(entries[k].id)) && Joined(entries[k].value) != ""
    requires forall j :: k < j < |entries| ==> Escape(Joined(entries[j].id)) != Escape(Joined(entries[k].id))
    ensures var outcome := Parse(PrintAll(entries, tail), defaults);
            outcome.Done? && Lookup(Merged(current, outcome.table), Joined(entries[k].id)) == Joined(entries[k].value)
  {
    hide Parse, PrintAll, TableOf, Escape, Joined, Printable;
    LoadPrinted(entries, tail, defaults);
    LastEntryDecides(entries, defaults, k);
    KeyIsTextExactly(Joined(entries[k].id));
  }

  /** A text that the catalogue translates by nothing keeps the translation it had. */
  lemma EmptyTranslationFilled(entries: seq<Entry>, tail: string, defaults: Table, current: Table, k: nat)
    requires (forall e :: e in entries ==> Printable(e)) && White(tail)
    requires k < |entries| && IsPlain(Joined(entries[k].id)) && Joined(entries[k].value) == ""
    requires forall j :: k < j < |entries| ==> Escape(Joined(entries[j].id)) != Escape(Joined(entries[k].id))
    ensures var outcome, key := Parse(PrintAll(entries, tail), defaults), Joined(entries[k].id);
            outcome.Done? && Lookup(Merged(current, outcome.table), key) == if key in current then current[key] else ""
  {
    hide Parse, PrintAll, TableOf, Escape, Joined, Printable;
    LoadPrinted(entries, tail, defaults);
    LastEntryDecides(entries, defaults, k);
    KeyIsTextExactly(Joined(entries[k].id));
  }

  /** A text that the catalogue does not mention is shown as before the load, exactly unless it is
      a built-in text that an earlier translation had changed: that one is built in again. */
  lemma OtherTextsKeptExactly(entries: seq<Entry>, tail: string, defaults: Table, current: Table, key: string)
    requires (forall e :: e in entries ==> Printable(e)) && White(tail) && entries != []
    requires forall e :: e in entries ==> Escape(Joined(e.id)) != key
    requires defaults.Keys <= current.Keys
    ensures var outcome := Parse(PrintAll(entries, tail), defaults);
            && outcome.Done?
            && (Lookup(Merged(current, outcome.table), key) == Lookup(current, key) <==>
                (key in defaults && defaults[key] != "" ==> current[key] == defaults[key]))
  {
    hide Parse, PrintAll, TableOf, Escape, Joined, Printable;
    LoadPrinted(entries, tail, defaults);
    OtherKeysKept(entries, defaults, key);
  }

  /** A button that was translated before loses its translation to a catalogue that does not name it. */
  lemma ResetTextExample()
    ensures var entry := Entry("", [Literal("", "Open")], "", [Literal("", "Datei")]);
            var outcome := Parse(PrintAll([entry], ""), map["Cancel" := "Cancel"]);
            && outcome.Done?
            && Lookup(map["Cancel" := "Abbrechen"], "Cancel") == "Abbrechen"
            && Lookup(Merged(map["Cancel" := "Abbrechen"], outcome.table), "Cancel") == "Cancel"
  {
    var entry := Entry("", [Literal("", "Open")], "", [Literal("", "Datei")]);
    assert Escape(Joined(entry.id)) == "Open" by {
      assert "Open" + "" == "Open";
      KeyIsTextExactly("Open");
    }
    hide Parse, PrintAll, Escape, Joined, TableOf;
    LoadPrinted([entry], "", map["Cancel" := "Cancel"]);
    OtherKeysKept([entry], map["Cancel" := "Cancel"], "Cancel");
  }
}
