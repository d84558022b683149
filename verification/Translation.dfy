/** Loading a translation, and what a printed catalogue becomes when it is loaded. */
module Translation {
  import opened Catalogue

  type Table = map<string, string>

  /** How the reading of a catalogue ends: with a table, early because a token is missing, never, or
      beyond the end of the text. */
  datatype Outcome = Done(table: Table) | Refused | NeverEnds | ReadsPastEnd

  function Stopped(token: Token): Outcome {
    match token
    case Endless => NeverEnds
    case PastEnd => ReadsPastEnd
    case _ => Refused
  }

  /** The loop of `load` on the text that is left. */
  function Parse(s: string, table: Table): Outcome
    decreases |s|
  {
    var id := NextToken(s);
    if id.token == Endless || id.token == PastEnd then Stopped(id.token)
    else if id.token != MsgId then Done(table)
    else
      var key := NextToken(id.rest);
      if key.token != Text then Stopped(key.token)
      else
        var msg := NextToken(key.rest);
        if msg.token != MsgStr then Stopped(msg.token)
        else
          var value := NextToken(msg.rest);
          if value.token != Text then Stopped(value.token)
          else Parse(value.rest, table[key.str := Unescaped(value.str)])
  }

  /** The new table, with the texts of the current one where it has none or an empty one. */
  function Merged(current: Table, loaded: Table): Table {
    map key | key in current.Keys + loaded.Keys ::
      if key in loaded && (loaded[key] != "" || key !in current) then loaded[key] else current[key]
  }

  class Messages {
    const defaults: Table
    var table: Table
    var hasHandler: bool

    /** Every built-in text is in the table. */
    ghost predicate Valid()
      reads this
    {
      defaults.Keys <= table.Keys
    }

    constructor (defaults: Table)
      ensures Valid()
      ensures this.defaults == defaults && table == defaults && !hasHandler
    {
      this.defaults, table, hasHandler := defaults, defaults, false;
    }

    /** `load` of a UTF-8 file; `beyond` is what stands behind the buffer in memory. The new data replaces
        the old one as a whole, so a handler for missing texts is lost. */
    method Load(file: string, beyond: string) returns (outcome: Outcome)
      requires Valid() && |beyond| == 3
      modifies this
      ensures Valid()
      ensures outcome == Parse(Visible(file, beyond), defaults)
      ensures outcome.Done? ==> table == Merged(old(table), outcome.table) && !hasHandler
      ensures !outcome.Done? ==> table == old(table) && hasHandler == old(hasHandler)
    {
      outcome := Read(file, beyond);
      if outcome.Done? {
        var merged := Merge(table, outcome.table);
        table, hasHandler := merged, false;
      }
    }

    method Read(file: string, beyond: string) returns (outcome: Outcome)
      requires |beyond| == 3
      ensures outcome == Parse(Visible(file, beyond), defaults)
    {
      var tokenizer := new Tokenizer(file, beyond);
      ghost var text := tokenizer.data;
      var newTable := defaults;
      assert text[0..] == text;
      while true
        invariant fresh(tokenizer) && tokenizer.Valid() && tokenizer.data == text
        invariant Parse(text[tokenizer.readPtr..], newTable) == Parse(text, defaults)
        decreases |tokenizer.data| - tokenizer.readPtr
      {
        ghost var start := tokenizer.readPtr;
        var token := tokenizer.Read();
        if token != MsgId {
          return if token == Endless || token == PastEnd then Stopped(token) else Done(newTable);
        }
        token := tokenizer.Read();
        if token != Text {
          return Stopped(token);
        }
        var msgId := tokenizer.str;
        token := tokenizer.Read();
        if token != MsgStr {
          return Stopped(token);
        }
        token := tokenizer.Read();
        if token != Text {
          return Stopped(token);
        }
        var str := Unescape(tokenizer.str);
        newTable := newTable[msgId := str];
      }
    }

    /** The loop over the current table. */
    static method Merge(current: Table, newTable: Table) returns (merged: Table)
      ensures merged == Merged(current, newTable)
    {
      merged := newTable;
      var left := current.Keys;
      while left != {}
        invariant left <= current.Keys
        invariant merged == Merged(map key | key in current && key !in left :: current[key], newTable)
        decreases left
      {
        var key :| key in left;
        var value := if key in merged then merged[key] else "";
        merged := merged[key := if value == "" then current[key] else value];
        left := left - {key};
      }
      assert (map key | key in current && key !in left :: current[key]) == current;
    }

    /** `_m_get`: the text, and whether the handler for missing texts is called. */
    method Get(msgId: string) returns (str: string, missed: bool)
      ensures str == Lookup(table, msgId) && missed == (msgId !in table && hasHandler)
      ensures if msgId in table then str == table[msgId] else str == msgId
    {
      if msgId in table {
        return table[msgId], false;
      }
      return msgId, hasHandler;
    }

    method Set(msgId: string, msgStr: string)
      requires Valid()
      modifies this`table
      ensures Valid()
      ensures table == old(table)[msgId := msgStr]
    {
      table := table[msgId := msgStr];
    }
  }

  function Lookup(table: Table, msgId: string): string {
    if msgId in table then table[msgId] else msgId
  }
}
