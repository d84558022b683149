# Verified model of SDRuno TXLink, its AD9851 driver and parts of nana

The repository holds an SDRuno plugin that links WSJT-X to a small transmitter, the Arduino code of
that transmitter, and the nana GUI library that the plugin is built on. This project models its seven
most intricate parts and proves what they promise.

- **Bidirectional text** (`BidiTypes`, `BidiScan`, `BidiRules`, `BidiWeak`, `BidiNeutral`, `BidiReorder`,
  `UnicodeBidi`). The class of the source with its in-place passes, compared on all level vectors with
  rules W1 to W7, N1, N2, I1, I2, L1 and L2 of UAX #9. The rules are defined on their own: with the run
  ends of X10, past the boundary neutrals that X9 removes, and W4 on single characters.
- **UTF-8, UTF-16 and UTF-32** (`Charset`, `CharsetBytes`, `CharsetRoundTrip`, `Utf8Walk`). The
  hand-written transcoders, on bytes and 32-bit codes, against RFC 3629 and RFC 2781, and which texts
  they bring back unchanged.
- **Dates** (`Calendar`). Month-by-month arithmetic and Zeller's formula against counting days.
- **Tuning arithmetic** (`Ad9851`). A reciprocal in place of a division, with exact error and
  overflow bounds, and tones over whole runs.
- **WSJT-X datagrams** (`Datagram`, `DatagramRoundTrip`, `DatagramWriter`). Readers with a cursor,
  writers into a buffer, and round trips between them.
- **The two threads of the plugin** (`Mailbox`, `TxLink`, `TxLinkForm`, `TxLinkSafety`, `TxLinkRuns`). The
  handshake between the UDP thread and the form as a state machine over single reads and writes; the
  keying of the transmitter as a log of serial commands; what every run keeps, and what each handling
  does for the status it handles.
- **The message catalogue** (`Catalogue`, `Translation`, `TranslationRoundTrip`, `Arguments`). The
  tokenizer, the in-place undoing of escapes, loading, and argument substitution.

Each method of the source that changes state is a method here, proved equal to a function of the state
before it; the lemmas are about those functions. Where the source does not do what its standard or its
own comments say, the model follows the source: a lemma gives an input, or a whole family of inputs, on
which the two differ, and another says exactly when they agree. This concerns the RLO level; marks
behind boundary neutrals and at changes of level in W1; the flag that outlives a level run in W2; the
head flag, long separators and run boundaries in W4 and W5; the run start in W7; boundary neutrals and
run ends in N1; the missing L1; four-byte UTF-8; little-endian surrogate pairs; date subtraction; clocks
that are powers of two; the transmit message of a status; frequencies changed while the port is closed;
the first frequency after a start; symbols after a change of mode; and the texts that a load resets.

Inputs that the source takes from elsewhere are parameters: the character table, today's date, the
answer of the UTF-8 error police, whether the serial port is open or can be reopened, whether the form's
frequency box is empty, the time to the end of a transmission slot, and the symbols that the external
encoder makes of a message. Where the source reads past a buffer, divides by zero, takes from an empty
stack, throws or never returns, the model has an outcome for it.

## Model

| member | source | states |
|---|---|---|
| `UnicodeBidi.UnicodeBidi.Reorder` | nana vs2022 v143/source/unicode_bidi.cpp:521-607 | the scan succeeds exactly when the paragraph level is 0 or no PDF stands where no embedding is open; the result is then rule L2 on the resolved levels of a cut of the text |
| `UnicodeBidi.EveryCharacterShownOnce` | nana vs2022 v143/source/unicode_bidi.cpp:521-607 | from text to display: every non-control character lies in exactly one of the entities that the reordered line shows |
| `UnicodeBidi.ShownAsStandard` | nana vs2022 v143/source/unicode_bidi.cpp:521-607 | the line shown is that of W1 to L2 when no entity has a shape on which a pass leaves its rules and none is missed by L1 |
| `UnicodeBidi.L1Exactly` | nana vs2022 v143/source/unicode_bidi.cpp:888-945 | for all entities and levels: what the passes leave keeps to L1, for which the source has no pass, exactly when every separator and every trailing white space has, after the passes' turn, the paragraph's level |
| `BidiRules.TrailingIs` | nana vs2022 v143/source/unicode_bidi.cpp:888-945 | the white space of L1, outright: nothing but white space and removed characters up to a separator or the end of the text |
| `UnicodeBidi.L1MissedExample` | nana vs2022 v143/source/unicode_bidi.cpp:888-945 | a tab between two right-to-left letters stays on level 1, against L1 |
| `UnicodeBidi.PlainTextIsOneRun` | nana vs2022 v143/source/unicode_bidi.cpp:526-597 | a text without embedding characters is cut into one level run at the paragraph's level |
| `UnicodeBidi.PlainTextShown` | nana vs2022 v143/source/unicode_bidi.cpp:521-607 | a text without embedding characters, boundary neutrals, tabs and line ends is shown as W1 to L2 ask, unless a separator or terminator of numbers has one of the four shapes |
| `UnicodeBidi.UnicodeBidi.Scan` | nana vs2022 v143/source/unicode_bidi.cpp:526-597 | the entities pushed are the cut of the text; the one failure is a pop of an empty stack, and its exact condition is stated on the text |
| `UnicodeBidi.UnicodeBidi.Step` | nana vs2022 v143/source/unicode_bidi.cpp:533-595 | each turn of the scan keeps the stack equal to the open embeddings and the entities equal to a cut of what has been read |
| `UnicodeBidi.UnicodeBidi.ParagraphLevel` | nana vs2022 v143/source/unicode_bidi.cpp:609-625 | 1 exactly when an R or AL stands in the text with no L, R or AL before it, else 0 |
| `UnicodeBidi.FirstStrongDecides` | nana vs2022 v143/source/unicode_bidi.cpp:611-624 | the same from any position on |
| `BidiScan.ZeroLevel` | nana vs2022 v143/source/unicode_bidi.cpp:526-597 | the level is 0 exactly when the paragraph level is 0 and nothing is open, so in such a paragraph every pop has something to take |
| `BidiScan.LevelBound` | nana vs2022 v143/source/unicode_bidi.cpp:554-580 | levels grow by at most two per character, for every saved level too, so 32 bits are enough for any text of fewer than 2^31 - 2 characters |
| `BidiScan.RaiseIsLeastAbove` | nana vs2022 v143/source/unicode_bidi.cpp:560-580 | each of the four embedding characters, by its code, gets the level of rules X2 to X5 of UAX #9 exactly when that level is not beyond the greatest depth, whatever it is, and it is not an RLO away from level 0 |
| `BidiScan.ControlsAre` | nana vs2022 v143/source/unicode_bidi.cpp:533-580 | the controls are the codes U+202A to U+202E |
| `BidiScan.RloExample` | nana vs2022 v143/source/unicode_bidi.cpp:575-578 | an RLO at level 1 gets level 2 instead of 3 |
| `BidiScan.OpenCounts` | nana vs2022 v143/source/unicode_bidi.cpp:535-580 | as long as every PDF closes an embedding, as many are open as embeddings less PDFs have been read |
| `BidiScan.NestedKeepsLevel` | nana vs2022 v143/source/unicode_bidi.cpp:535-580 | what is opened and closed again leaves the open embeddings and the level as they were |
| `BidiScan.CutsOrdered` | nana vs2022 v143/source/unicode_bidi.cpp:526-597 | entities are disjoint and in text order |
| `BidiScan.CutsCover` | nana vs2022 v143/source/unicode_bidi.cpp:526-597 | every non-control character lies in an entity |
| `BidiScan.CutsUnique` | nana vs2022 v143/source/unicode_bidi.cpp:526-597 | a text has only one cut into maximal stretches of one kind and one level, so the scan's contract fixes its result |
| `BidiScan.TogetherExactly` | nana vs2022 v143/source/unicode_bidi.cpp:526-597 | two characters get into one entity exactly when all characters from one to the other are of one kind and no control between them is an embedding or a PDF, except a PDF in a left-to-right paragraph with nothing open |
| `BidiScan.StackPush` | nana vs2022 v143/source/unicode_bidi.cpp:547-580 | saving the state at an embedding keeps the stack in step with the open embeddings |
| `BidiScan.StackPop` | nana vs2022 v143/source/unicode_bidi.cpp:535-545 | restoring the state at a PDF gives the level outside the innermost open embedding |
| `UnicodeBidi.UnicodeBidi.ResolveWeakTypes` | nana vs2022 v143/source/unicode_bidi.cpp:665-819 | the three loops in place, as one function of the entities they start from |
| `UnicodeBidi.UnicodeBidi.ResolveMarksAndNumbers` | nana vs2022 v143/source/unicode_bidi.cpp:683-716 | the loop with its carried flag and previous kind gives each entity the kind of a backward search |
| `UnicodeBidi.UnicodeBidi.ResolveSeparatorsAndTerminators` | nana vs2022 v143/source/unicode_bidi.cpp:719-786 | the loop with its pending terminators and head flag gives each entity a kind defined without either |
| `UnicodeBidi.UnicodeBidi.SecondStep` | nana vs2022 v143/source/unicode_bidi.cpp:725-780 | one turn of that loop: what is decided, what still waits, and the head flag |
| `UnicodeBidi.UnicodeBidi.FillWaiting` | nana vs2022 v143/source/unicode_bidi.cpp:745-786 | the terminators that wait get the kind that whatever ends them decides, and nothing else changes |
| `UnicodeBidi.UnicodeBidi.ResolveNumbersAfterL` | nana vs2022 v143/source/unicode_bidi.cpp:788-818 | the forward flag equals searching backward to the last change of level, with the direction of the entity's own level beyond it |
| `BidiWeak.FusedIsW1W2W3` | nana vs2022 v143/source/unicode_bidi.cpp:683-716 | on all levels and kinds the combined loop equals W1, then W2, then W3, with the run ends of X10 and past the characters that X9 removes, exactly when no number is reached by the flag of another run, no mark stands directly behind a BN, and no mark at a change of level is misled |
| `BidiWeak.FusedOnOneRun` | nana vs2022 v143/source/unicode_bidi.cpp:683-716 | on one level run at the paragraph's level the combined loop is W1, W2, W3 exactly when no mark stands directly behind a BN |
| `BidiWeak.LeakExample` | nana vs2022 v143/source/unicode_bidi.cpp:683-716 | an Arabic letter of one run changes a digit of the next, against W2 |
| `BidiWeak.MarkMisledExample` | nana vs2022 v143/source/unicode_bidi.cpp:683-716 | a mark behind an embedding takes the direction of its own level, against W1 and X10 |
| `BidiWeak.MarkMisledPlainly` | nana vs2022 v143/source/unicode_bidi.cpp:683-716 | in texts without BN: a mark is misled exactly where its level meets a higher one of the other direction |
| `BidiWeak.MarkBehindBNExample` | nana vs2022 v143/source/unicode_bidi.cpp:683-716 | a mark behind a zero-width space becomes BN, against W1 and X9 |
| `BidiWeak.SecondIsW4W5W6` | nana vs2022 v143/source/unicode_bidi.cpp:719-786 | on all levels and kinds the second loop equals W4, for single characters, then W5, then W6 exactly when no entity has one of four named shapes |
| `BidiWeak.SecondIgnoresRuns` | nana vs2022 v143/source/unicode_bidi.cpp:719-786 | the kinds the loop leaves do not depend on levels: they are those of the rules on the text as one run, with the same exact condition |
| `BidiWeak.SecondPointwise` | nana vs2022 v143/source/unicode_bidi.cpp:719-786 | entity by entity: where the second loop deviates one side has a number and the other a neutral |
| `BidiWeak.TerminatorLostExample` | nana vs2022 v143/source/unicode_bidi.cpp:725-761 | in "1%" the sign is not made a number, against W5 |
| `BidiWeak.TerminatorGainedExample` | nana vs2022 v143/source/unicode_bidi.cpp:719-786 | a terminator takes the kind of a digit of the next level run, against W5 |
| `BidiWeak.TerminatorsPlainly` | nana vs2022 v143/source/unicode_bidi.cpp:725-780 | in texts without BN: terminators are lost before the first separator, behind a number of their run with none ahead, and gained where every number they lead to is of another run |
| `BidiWeak.SeparatorGainedExample` | nana vs2022 v143/source/unicode_bidi.cpp:725-743 | in "1,2++3" both plus signs are made numbers, against W4 |
| `BidiRules.SingleIs` | nana vs2022 v143/source/unicode_bidi.cpp:719-743 | W4 asks for an entity in which no two characters stand; skipped PDFs do not count |
| `BidiWeak.WaitingEnds` | nana vs2022 v143/source/unicode_bidi.cpp:745-786 | pending terminators become numbers exactly when a European number ends them |
| `BidiWeak.ThirdIsW7` | nana vs2022 v143/source/unicode_bidi.cpp:788-818 | on all levels and kinds the third loop equals W7 exactly when no number without a strong character since the last change of level is misled by the direction of its own level |
| `BidiWeak.ThirdExample` | nana vs2022 v143/source/unicode_bidi.cpp:788-818 | a digit behind an embedded right-to-left letter becomes L, against W7 and X10 |
| `BidiWeak.WeakIsW1ToW7` | nana vs2022 v143/source/unicode_bidi.cpp:665-819 | on all levels and kinds the whole weak pass is W1 to W7 exactly when no entity has a shape on which a loop parts from its rules and W7 turns to L every mark that sits on a digit behind a BN of another level |
| `BidiWeak.FirstCovers` | nana vs2022 v143/source/unicode_bidi.cpp:683-716 | without those shapes the first loop leaves what W1 to W3 do, except that each such mark is L instead of a number or terminator |
| `BidiWeak.SecondCovered` | nana vs2022 v143/source/unicode_bidi.cpp:719-786 | over such marks: the second loop and W4 to W6, each from its own kinds, differ exactly on the named shapes, and then one side has a number and the other a neutral |
| `BidiWeak.DigitMarkExample` | nana vs2022 v143/source/unicode_bidi.cpp:665-819 | such a mark: the first loop leaves another kind than W1 to W3, and the whole pass does not |
| `BidiWeak.WeakResolves` | nana vs2022 v143/source/unicode_bidi.cpp:665-819 | no NSM, AL, ES, CS or ET survives, and text positions and levels are untouched |
| `UnicodeBidi.UnicodeBidi.ResolveNeutralTypes` | nana vs2022 v143/source/unicode_bidi.cpp:821-886 | the block-by-block loop, with its end of run, as a function of the entities before it |
| `UnicodeBidi.UnicodeBidi.CloseBlock` | nana vs2022 v143/source/unicode_bidi.cpp:853-872 | a block is filled with one kind when the character behind it arrives |
| `UnicodeBidi.UnicodeBidi.Eor` | nana vs2022 v143/source/unicode_bidi.cpp:648-663 | the kind of the first later entity of another level, else the direction of the text's first level |
| `BidiNeutral.BlockKindIs` | nana vs2022 v143/source/unicode_bidi.cpp:648-663 | what the loop writes over a block on any levels, from its two ends: with several levels in the block its search for the run's end stops at a neutral of the block itself, and the block gets the direction of its first level |
| `BidiNeutral.NeutralIsN1N2` | nana vs2022 v143/source/unicode_bidi.cpp:821-886 | for every neutral on any levels, the loop agrees with N1 and N2, run ends and removed characters included, exactly when it has none of six shapes, each written with the ends of its block, the ends of its group and the levels that meet there |
| `BidiNeutral.NeutralOneLevelBlock` | nana vs2022 v143/source/unicode_bidi.cpp:821-886 | for a block of one level with no BN beside it there are two shapes: it starts a run and both of its ends are against its level, or it ends one behind the opposite direction and what the loop finds behind it is not what the rules find |
| `BidiNeutral.NeutralInsideRun` | nana vs2022 v143/source/unicode_bidi.cpp:821-886 | inside a level run, no BN beside the block, the loop is N1 and N2 |
| `BidiNeutral.NeutralPassIsN1N2` | nana vs2022 v143/source/unicode_bidi.cpp:821-886 | on all levels and kinds the neutral pass equals N1 and N2 exactly when no neutral has one of the six shapes |
| `BidiNeutral.NeighboursDecide` | nana vs2022 v143/source/unicode_bidi.cpp:846-872 | inside a level run, for the loop and for N1 and N2 alike: neutrals between two of R, EN and AN become R, between two L become L, and any others get the direction of their level |
| `BidiNeutral.LoopByNeighbours` | nana vs2022 v143/source/unicode_bidi.cpp:846-872 | for the loop the same on any levels, with the level of the block's first neutral, wherever it sees both sides |
| `BidiNeutral.RulesByNeighbours` | nana vs2022 v143/source/unicode_bidi.cpp:821-886 | for the rules the same on any levels and past removed characters, wherever a group has both neighbours in its run |
| `BidiNeutral.NumberAsLetterExample` | nana vs2022 v143/source/unicode_bidi.cpp:851-866 | a space between a right-to-left letter and a number, on either side, becomes R |
| `BidiNeutral.BetweenBNExample` | nana vs2022 v143/source/unicode_bidi.cpp:821-886 | between two BN the loop writes BN |
| `BidiNeutral.HiddenLetterExample` | nana vs2022 v143/source/unicode_bidi.cpp:821-886 | a BN hides the right-to-left letter before a space |
| `BidiNeutral.EndOfRunExample` | nana vs2022 v143/source/unicode_bidi.cpp:856-866 | a space before an embedding takes the embedding's first letter for the run's end |
| `BidiNeutral.StartOverlookedExample` | nana vs2022 v143/source/unicode_bidi.cpp:821-886 | a space behind an embedding, where the run starts with R, is not turned to R |
| `BidiNeutral.SpanExample` | nana vs2022 v143/source/unicode_bidi.cpp:821-886 | a block over two levels gets one direction, against N1 and N2 on the second level |
| `UnicodeBidi.UnicodeBidi.ResolveImplicitLevels` | nana vs2022 v143/source/unicode_bidi.cpp:888-911 | rules I1 and I2 in place |
| `BidiNeutral.ImplicitResolves` | nana vs2022 v143/source/unicode_bidi.cpp:888-911 | after neutrals and implicit levels only L, R, EN, AN and BN are left, each on its parity and at most two levels up |
| `BidiNeutral.NeutralLevel` | nana vs2022 v143/source/unicode_bidi.cpp:821-911 | a neutral ends one level up exactly when its block is turned against its level, else on its own |
| `BidiNeutral.PassesResolve` | nana vs2022 v143/source/unicode_bidi.cpp:665-911 | the same for all passes together, from the entities of the scan, with text positions kept |
| `UnicodeBidi.UnicodeBidi.ReverseRange` | nana vs2022 v143/source/unicode_bidi.cpp:931-937 | a stretch of the line turned end for end in place |
| `UnicodeBidi.UnicodeBidi.ReverseLevel` | nana vs2022 v143/source/unicode_bidi.cpp:923-943 | one turn of the level loop reverses every maximal run that reaches the level and nothing else |
| `UnicodeBidi.UnicodeBidi.ReorderResolvedLevels` | nana vs2022 v143/source/unicode_bidi.cpp:913-945 | the loop down to level 1, on runs read off levels that stay put, is rule L2 |
| `BidiReorder.PassesAreL2` | nana vs2022 v143/source/unicode_bidi.cpp:913-945 | reversing down to level 1 on fixed levels equals rule L2, which stops at the lowest odd level and reads runs off the line as it stands |
| `BidiReorder.L2Order` | nana vs2022 v143/source/unicode_bidi.cpp:913-945 | L2 without its passes: of two entities the later one is shown first exactly when the lowest level from one to the other is odd |
| `BidiReorder.PassKeepsPattern` | nana vs2022 v143/source/unicode_bidi.cpp:923-943 | a pass does not change which positions reach a lower level, so reading the levels before or after it is the same |
| `BidiReorder.PassTwice` | nana vs2022 v143/source/unicode_bidi.cpp:923-943 | two passes with no level between them undo each other |
| `BidiReorder.PassesCancel` | nana vs2022 v143/source/unicode_bidi.cpp:923-943 | below the lowest odd level the passes cancel |
| `BidiReorder.L2Permutes` | nana vs2022 v143/source/unicode_bidi.cpp:913-945 | the line shown is a permutation of the entities |
| `BidiReorder.PassesPlace` | nana vs2022 v143/source/unicode_bidi.cpp:913-945 | where each entity ends up |
| `BidiReorder.MirrorTwice` | nana vs2022 v143/source/unicode_bidi.cpp:931-937 | mirroring a position in its run twice gives it back, and stays in runs of that level |
| `Charset.Utf8ToUtf16` | nana vs2022 v143/source/charset.cpp:881-903 | the converter, its byte order mark taken apart, decodes code by code; it leaves its buffer exactly when decoding does |
| `Charset.Utf8ToUtf32` | nana vs2022 v143/source/charset.cpp:905-926 | the same into UTF-32 |
| `Charset.Utf16ToUtf8` | nana vs2022 v143/source/charset.cpp:928-961 | the same from UTF-16 in the byte order its mark selects, little-endian without one |
| `Charset.Utf16ToUtf32` | nana vs2022 v143/source/charset.cpp:963-991 | the same into UTF-32 of the same byte order |
| `Charset.Utf32ToUtf8` | nana vs2022 v143/source/charset.cpp:993-1026 | the same from UTF-32, whose last incomplete code is dropped |
| `Charset.Utf32ToUtf16` | nana vs2022 v143/source/charset.cpp:1028-1057 | the same into UTF-16 of the same byte order |
| `Charset.LeftoverDropped` | nana vs2022 v143/source/charset.cpp:993-1057 | up to three bytes behind the last whole code of UTF-32 change nothing |
| `Charset.MarkIsCode` | nana vs2022 v143/source/charset.cpp:881-1057 | treating a byte order mark apart is the same as decoding it as U+FEFF |
| `CharsetBytes.Put8IsUtf8` | nana vs2022 v143/source/charset.cpp:797-822 | every character number up to 0x10FFFF is written as section 3 of RFC 3629 says: the lead byte in the range of its length, later bytes in 0x80 to 0xBF, and the bits they carry, by place value, add up to it |
| `CharsetBytes.EncodeIsUtf8` | nana vs2022 v143/source/charset.cpp:797-822 | so is every text the converters append |
| `CharsetBytes.Utf8Example` | nana vs2022 v143/source/charset.cpp:805-819 | U+00E9 is C3 A9 and U+1F600 is F0 9F 98 80 |
| `CharsetBytes.Put16IsUtf16` | nana vs2022 v143/source/charset.cpp:824-861 | every character number is written as section 2.1 of RFC 2781 says, in either byte order, with surrogates in their ranges |
| `CharsetBytes.Put32IsUtf32` | nana vs2022 v143/source/charset.cpp:863-879 | every 32-bit code is written as four bytes whose place values add up to it |
| `CharsetBytes.Get8Reads` | nana vs2022 v143/source/charset.cpp:690-730 | what `utf8char` makes of any bytes, by place value: it does not look at the tags of later bytes and reads a zero behind the text |
| `CharsetBytes.Get16Reads` | nana vs2022 v143/source/charset.cpp:732-779 | what `utf16char` makes of any units: a lead surrogate takes whatever unit follows it |
| `CharsetBytes.Get32Reads` | nana vs2022 v143/source/charset.cpp:781-795 | what `utf32char` makes of any four bytes, and of fewer |
| `CharsetRoundTrip.ConvertCarried` | nana vs2022 v143/source/charset.cpp:690-879 | every text of scalar values that a form carries is converted code by code, and its loop stops at the end of the text |
| `CharsetRoundTrip.Utf8ThroughUtf16` | nana vs2022 v143/source/charset.cpp:881-961 | UTF-8 to UTF-16 and back is the identity exactly when every code has at most 16 bits and the first is not U+FFFE |
| `CharsetRoundTrip.Utf32ThroughUtf16Marked` | nana vs2022 v143/source/charset.cpp:963-1057 | big-endian UTF-32 with a mark comes back from UTF-16 unchanged for all scalar values, surrogate pairs included |
| `CharsetRoundTrip.Utf32ThroughUtf16` | nana vs2022 v143/source/charset.cpp:963-1057 | little-endian UTF-32 comes back exactly when no code needs a surrogate pair and the first is not U+FFFE |
| `CharsetRoundTrip.Get16Put16Two` | nana vs2022 v143/source/charset.cpp:732-861 | a surrogate pair is decoded to its code in big-endian order and 0x10000 too low in little-endian order |
| `CharsetRoundTrip.DecodeLost8` | nana vs2022 v143/source/charset.cpp:709-729 | the first four-byte character ends the decoding with a zero |
| `CharsetRoundTrip.DecodeLost16` | nana vs2022 v143/source/charset.cpp:740-750 | the first little-endian surrogate pair comes back as another code |
| `Utf8Walk.IsUtf8` | nana vs2022 v143/source/deploy.cpp:32-59 | true exactly when the text is cut without remainder into stretches of the announced lengths |
| `Utf8Walk.TiledIsDecoded` | nana vs2022 v143/source/charset.cpp:690-730 | a text that `is_utf8` accepts is decoded inside its bounds without asking the error police |
| `Utf8Walk.OverrunExactly` | nana vs2022 v143/source/charset.cpp:690-730 | the UTF-8 decoder steps past the end of its buffer exactly when the last character it comes to lacks one byte |
| `Utf8Walk.CharPtr` | nana vs2022 v143/source/charset.cpp:72-100 | the pointer of the k-th character, or null, or past the buffer |
| `Utf8Walk.OneCharacterOn` | nana vs2022 v143/source/charset.cpp:72-100 | one character on: over as many bytes as are announced, inside the text or, with three, one byte beyond it; else null |
| `Utf8Walk.CharAtEncoded` | nana vs2022 v143/source/charset.cpp:161-216 | on every encoded text of 16-bit scalar values `char_at` gives the k-th code and its length; from the first wider code on it finds nothing |
| `Utf8Walk.ReadsAsDecoded` | nana vs2022 v143/source/charset.cpp:161-216 | `char_at` reads what the decoder reads at that position, on any bytes, and stores as many bytes as are announced |
| `Utf8Walk.NothingRead` | nana vs2022 v143/source/charset.cpp:161-216 | elsewhere it reads nothing: length 0, or 1 for the terminating zero |
| `Utf8Walk.IsUtf8Encoded` | nana vs2022 v143/source/deploy.cpp:32-59 | `is_utf8` accepts an encoded text of scalar values exactly when all have at most 16 bits |
| `Calendar.Add` | nana vs2022 v143/source/datetime.cpp:179-205 | whole months at a time, the result is the date found by counting days one by one; it is valid and its day number is exactly that much higher |
| `Calendar.AfterCompose` | nana vs2022 v143/source/datetime.cpp:179-205 | additions compose |
| `Calendar.AfterNumber` | nana vs2022 v143/source/datetime.cpp:179-205 | counting on by x days raises the day number by x |
| `Calendar.AddYearBound` | nana vs2022 v143/source/datetime.cpp:179-205 | how far the year can grow, so that its 32 bits do not wrap |
| `Calendar.OrderIsCounting` | nana vs2022 v143/source/datetime.cpp:106-136 | `<`, `>` and equality order valid dates exactly as their day numbers |
| `Calendar.DayInYear` | nana vs2022 v143/source/datetime.cpp:235-241 | the days before the month plus the day; 31 December gives the days of the year |
| `Calendar.DayOfWeek` | nana vs2022 v143/source/datetime.cpp:153-172 | the day of the week agrees with counting days modulo 7, and 7 is returned for 0 exactly when the sum is a negative multiple of 7 |
| `Calendar.ZellerCounts` | nana vs2022 v143/source/datetime.cpp:153-172 | Zeller's sum and the count of days agree modulo 7 for every valid date from the year 1 on |
| `Calendar.Make` | nana vs2022 v143/source/datetime.cpp:70-80 | a valid date of the years 1601 to 30826 is kept as it is, and anything else becomes today |
| `Calendar.Sub` | nana vs2022 v143/source/datetime.cpp:207-233 | the loop as a function, with a counter or a year that goes below zero as outcomes of their own |
| `Calendar.SubtractNumber` | nana vs2022 v143/source/datetime.cpp:207-233 | by how many days a subtraction misses: the length of the month it lands in less the day it started from |
| `Calendar.LandsExactly` | nana vs2022 v143/source/datetime.cpp:207-233 | a condition on the date and the days alone says when a subtraction lands on a date before its counter or its year goes below zero |
| `Calendar.SubtractRightExactly` | nana vs2022 v143/source/datetime.cpp:207-233 | for every date and count: a subtraction lands on the right date exactly when it stays in its month or its counter ends inside an earlier month as long as the day it started from |
| `Calendar.SubtractExample` | nana vs2022 v143/source/datetime.cpp:207-233 | 31 days before 31 March 2023, and a counter that wraps |
| `Ad9851.Ad9851.SetClock` | TXlink4_Nano/AD9851.h:58-67 | it fails exactly for a clock of 0; else the loop stops at the whole part of the binary logarithm of the calibrated clock and stores 32 bits of its scaled reciprocal |
| `Ad9851.ClockCorrectedExactly` | TXlink4_Nano/AD9851.h:60 | for calibrations of less than the whole clock, the clock is the core clock less its calibration in parts per 10^9, rounded down, exactly while that fits 32 bits |
| `Ad9851.ClockUncorrected` | TXlink4_Nano/AD9851.h:58-60 | without a calibration it is the core clock |
| `Ad9851.ClockFalls` | TXlink4_Nano/AD9851.h:60 | a higher calibration never gives a higher clock, and a lower one from 1 GHz on |
| `Ad9851.ClockExample` | TXlink4_Nano/AD9851.h:60 | 180 MHz with a calibration of -21500 is 180003870 Hz |
| `Ad9851.ReciprocalRange` | TXlink4_Nano/AD9851.h:58-67 | the reciprocal lies in [2^31, 2^32) unless the clock is a power of two, and then it is 0 |
| `Ad9851.FtwAccurate` | TXlink4_Nano/AD9851.h:72-76 | up to half the clock nothing overflows and the tuning word lies within stated bounds of the exact quotient |
| `Ad9851.FtwExample` | TXlink4_Nano/AD9851.h:58-76 | the words of 1 Hz, 7.074 MHz and 18 MHz at 180 MHz, rounding term included |
| `Ad9851.FtwMonotoneExactly` | TXlink4_Nano/AD9851.h:72-76 | up to any top frequency a higher frequency never gets a smaller word exactly when the word of the top frequency fits 32 bits |
| `Ad9851.FtwMonotone` | TXlink4_Nano/AD9851.h:72-76 | up to half the clock that is so |
| `Ad9851.PowerOfTwoSilent` | TXlink4_Nano/AD9851.h:58-76 | with a clock that is a power of two every frequency gets the word 0 |
| `Ad9851.AccurateExactly` | TXlink4_Nano/AD9851.h:58-76 | the accuracy holds for all frequencies up to half the clock exactly when the clock is no power of two |
| `Ad9851.NoOverflow` | TXlink4_Nano/AD9851.h:72-76 | the 64-bit multiplication never overflows |
| `Ad9851.IncrementRounds` | TXlink4_Nano/AD9851.h:140-159 | with a clock of 180 MHz the increment is the step in microhertz to the nearest tuning unit exactly while the numerator fits 64 bits |
| `Ad9851.IncrementOfHertz` | TXlink4_Nano/AD9851.h:140-159 | the error of the increment for a step in hertz, cut to microhertz on the way |
| `Ad9851.Ad9851.SetFtw` | TXlink4_Nano/AD9851.h:97-115 | the byte loop sends the five bytes of the frame |
| `Ad9851.FrameCarriesWord` | TXlink4_Nano/AD9851.h:97-115 | the first four bytes reassemble to the word, least significant first, and the fifth is 1 for power up and 4 for power down |
| `Ad9851.Ad9851.SetFrequencyHzX10` | TXlink4_Nano/AD9851.h:84-88 | the whole new state: the base word and one more frame |
| `Ad9851.Ad9851.SetFrequencyHz` | TXlink4_Nano/AD9851.h:78-82 | the same, with the 32-bit multiplication by ten |
| `Ad9851.Ad9851.SetFrequencyIncrement` | TXlink4_Nano/AD9851.h:91-94 | a tone sends a frame and leaves the base word |
| `Ad9851.RunIs` | TXlink4_Nano/AD9851.h:78-115 | any run of commands, outright: one frame for each, and the base word of the last frequency |
| `Ad9851.TonesDoNotDrift` | TXlink4_Nano/AD9851.h:84-115 | in any run, a tone's bytes reassemble to base word plus its own increment modulo 2^32, whatever tones came before |
| `Datagram.Packet.GetNumber` | SDRunoPlugin_TXLink/WSJTX_Packet.h:66-131 | reversing the bytes and copying them into an integer reads a big-endian number and moves the cursor; None where the source reads past the datagram |
| `Datagram.Packet.ReadUtf8` | SDRunoPlugin_TXLink/WSJTX_Packet.h:29-39 | a length-prefixed string; null and negative lengths give the empty one |
| `Datagram.NullText` | SDRunoPlugin_TXLink/WSJTX_Packet.h:29-39 | a text whose length has its highest bit set, as a null string has, is empty |
| `Datagram.Packet.DecodeHeader` | SDRunoPlugin_TXLink/WSJTX_Packet.h:143-148 | the header fields in order |
| `Datagram.Packet.DecodeStatus` | SDRunoPlugin_TXLink/WSJTX_Packet.h:259-280 | the status fields in order and the text taken from the datagram's end |
| `Datagram.Packet.DecodeSpot` | SDRunoPlugin_TXLink/WSJTX_Packet.h:320-330 | the fields of a decoded transmission in order |
| `Datagram.LittleIsBigReversed` | SDRunoPlugin_TXLink/WSJTX_Packet.h:66-131 | the reversed bytes as a little-endian number are the bytes as a big-endian one |
| `Datagram.BigBytes` | SDRunoPlugin_TXLink/UDP_Type17.cpp:148-163 | n bytes, most significant first, carry every number below 256^n |
| `DatagramRoundTrip.HeaderBack` | SDRunoPlugin_TXLink/WSJTX_Packet.h:143-148 | a written header is read back, with the cursor at what follows |
| `DatagramRoundTrip.StatusRoundTrip` | SDRunoPlugin_TXLink/NetworkMessage.hpp:141-163 | every status record in the documented layout comes back field by field; the transmit message is right exactly when the configuration name has 7 bytes |
| `DatagramRoundTrip.TailMessage` | SDRunoPlugin_TXLink/WSJTX_Packet.h:133-141 | where the default transmit message is taken from, and when that is the message |
| `DatagramRoundTrip.ShortConfigurationExample` | SDRunoPlugin_TXLink/WSJTX_Packet.h:133-141 | without a configuration name the first seven bytes of the message are lost |
| `DatagramRoundTrip.SpotRoundTrip` | SDRunoPlugin_TXLink/WSJTX_Packet.h:320-330 | every decoded transmission comes back, and bytes behind it are left unread |
| `DatagramRoundTrip.SpotIgnoresExtra` | SDRunoPlugin_TXLink/NetworkMessage.hpp:89-97 | any datagram whose header and decode record can be read, well formed or not, gives both again when bytes are appended |
| `DatagramWriter.Buffer.AppendBeUint32` | SDRunoPlugin_TXLink/UDP_Type17.cpp:148-152 | swapping a number and copying it from memory appends its four bytes, most significant first |
| `DatagramWriter.Buffer.AppendBeUint64` | SDRunoPlugin_TXLink/UDP_Type17.cpp:155-163 | the same for eight bytes |
| `DatagramWriter.Buffer.AppendQUtf8` | SDRunoPlugin_TXLink/UDP_Type17.cpp:166-173 | the length and then the bytes |
| `DatagramWriter.Buffer.AppendSetFreqHeader` | SDRunoPlugin_TXLink/UDP_Type17.cpp:201-205 | the header of the SetFreq datagram |
| `DatagramWriter.HeaderBytes` | SDRunoPlugin_TXLink/UDP_Type17.cpp:202-204 | the first twelve bytes of the command: the magic number, 3 and 17 |
| `DatagramWriter.SetFreqHeaderBack` | SDRunoPlugin_TXLink/UDP_Type17.cpp:201-205 | the header reader finds magic, schema, type and client id in it, and stops behind them |
| `Mailbox.RunsAreSerial` | SDRunoPlugin_TXLink/UDP_Server.cpp:275-310 | in every interleaving whose wait never times out, the shared variables and the form are where whole posts and handlings, taking turns, bring them: none is torn, skipped or seen twice |
| `Mailbox.StepConsistent` | SDRunoPlugin_TXLink/SDRunoPlugin_TXLinkForm.cpp:880-982 | the invariant behind it is kept by every single write, read, wait and press |
| `Mailbox.ExclusiveExactly` | SDRunoPlugin_TXLink/UDP_Server.cpp:275-310 | the UDP thread keeps off a pending event throughout a run exactly when no wait times out |
| `Mailbox.WaitGivesUp` | SDRunoPlugin_TXLink/UDP_Server.cpp:270-283 | while an event stays unhandled the wait goes on for fifty sleeps and then gives up |
| `Mailbox.TurnsCount` | SDRunoPlugin_TXLink/SDRunoPlugin_TXLinkForm.cpp:880-982 | with posts and handlings taking turns, the number of posts is that of handlings, or one more while one is pending |
| `TxLinkRuns.HandlesItsStatus` | SDRunoPlugin_TXLink/SDRunoPlugin_TXLinkForm.cpp:880-982 | in every interleaving whose wait never times out, the form starts its k-th handling on the variables of the k-th status posted |
| `TxLinkRuns.StatusShown` | SDRunoPlugin_TXLink/UDP_Server.cpp:285-309 | between a post and its handling the variables show that post's status |
| `TxLinkRuns.RunsHalt` | SDRunoPlugin_TXLink/SDRunoPlugin_TXLinkForm.cpp:949-953 | in every run a halt is pending exactly when one was raised and no handling has been done since |
| `TxLinkRuns.RunsKeyExactly` | SDRunoPlugin_TXLink/SDRunoPlugin_TXLinkForm.cpp:883-957 | where posts and handlings take turns, a handling writes {X1} exactly when the form does it, its status transmits in FT4 or FT8, and no halt has been raised since the last handling done |
| `TxLinkRuns.KeysAfterHalt` | SDRunoPlugin_TXLink/SDRunoPlugin_TXLinkForm.cpp:949-957 | a transmitting FT status behind a handled halt, with none raised since, is keyed with {X1} |
| `TxLink.PostIsWrites` | SDRunoPlugin_TXLink/UDP_Server.cpp:285-309 | the single assignments of the status branch, done in a row, are one post |
| `TxLink.HandleIsReads` | SDRunoPlugin_TXLink/SDRunoPlugin_TXLinkForm.cpp:883-980 | the single reads of `ProcessUDPEvent`, done in a row, are one handling |
| `TxLinkForm.UdpServer.ProcessStatus` | SDRunoPlugin_TXLink/UDP_Server.cpp:285-308 | the status branch as assignments to fields, against the post |
| `TxLinkForm.TxLinkForm.ProcessUdpEvent` | SDRunoPlugin_TXLink/SDRunoPlugin_TXLinkForm.cpp:880-982 | the handler as a method over fields and a serial log, against the handling; an active one leaves no halt and no new frequency, and the mode of a status that transmits |
| `TxLinkForm.TxLinkForm.TakeFrequency` | SDRunoPlugin_TXLink/SDRunoPlugin_TXLinkForm.cpp:883-904 | the start-up rule and the taking over of a new frequency |
| `TxLinkForm.TxLinkForm.PrepareKey` | SDRunoPlugin_TXLink/SDRunoPlugin_TXLinkForm.cpp:906-947 | the preparation of a transmission and the command to send last |
| `TxLinkForm.TxLinkForm.WritePreparation` | SDRunoPlugin_TXLink/SDRunoPlugin_TXLinkForm.cpp:906-935 | mode, offset, symbols and watchdog, which is 30000 ms for TUNE, in that order |
| `TxLinkForm.TxLinkForm.FinishEvent` | SDRunoPlugin_TXLink/SDRunoPlugin_TXLinkForm.cpp:949-980 | the last command in data mode with an FT mode, {X0W0} in its place for a halt; the halt is then done with |
| `TxLinkForm.TxLinkForm.SetupDataMode` | SDRunoPlugin_TXLink/SDRunoPlugin_TXLinkForm.cpp:985-1027 | data mode on WSJT-X's frequency; at most one frequency command, which carries it, and a form in step with the transmitter stays so |
| `TxLinkForm.TxLinkForm.SendTxFreq` | SDRunoPlugin_TXLink/SDRunoPlugin_TXLinkForm.cpp:1074-1104 | when exactly a frequency command goes out; the frequency counts as sent even when none does; with a usable port the form is in step with the transmitter afterwards |
| `TxLinkForm.TxLinkForm.SendRxFreq` | SDRunoPlugin_TXLink/SDRunoPlugin_TXLinkForm.cpp:1057-1071 | the receiver's frequency is taken over only while tracking or with an empty frequency box; at most one frequency command, which carries the current one; step with the transmitter kept |
| `TxLinkForm.TxLinkForm.FixFreqBtnClicked` | SDRunoPlugin_TXLink/SDRunoPlugin_TXLinkForm.cpp:1364-1391 | the form is unsplit and tracks afterwards exactly when it was split, and is else split between transmitter and receiver; ending to track sends nothing; step with the transmitter kept |
| `TxLinkForm.TxLinkForm.FixTxUp` | SDRunoPlugin_TXLink/SDRunoPlugin_TXLinkForm.cpp:1525-1540 | the frequency steps and tracking ends; leaving tracking stays tied to leaving the unsplit mode; at most one frequency command; step with the transmitter kept |
| `TxLinkForm.TxLinkForm.AnswerAnnouncement` | SDRunoPlugin_TXLink/SDRunoPlugin_TXLinkForm.cpp:786-796 | when the transmitter announces itself the current frequency is written whether or not it counts as sent; with the port open the transmitter is then on it |
| `TxLinkSafety.HandleIs` | SDRunoPlugin_TXLink/SDRunoPlugin_TXLinkForm.cpp:883-980 | the commands of one active handling and the whole state it leaves, outright: a halt is cleared, and the mode is that of a status that transmits |
| `TxLinkSafety.InactiveIsSilent` | SDRunoPlugin_TXLink/SDRunoPlugin_TXLinkForm.cpp:883-980 | any other handling sends nothing, and what it changes |
| `TxLinkSafety.KeysExactly` | SDRunoPlugin_TXLink/SDRunoPlugin_TXLinkForm.cpp:883-957 | {X1} is written exactly when the status transmits in FT4 or FT8, no halt is pending and the form is active; then the form is in data mode and {M}, {Y}, {Z}, {W} of the same event stand before it |
| `TxLinkSafety.StopsExactly` | SDRunoPlugin_TXLink/SDRunoPlugin_TXLinkForm.cpp:906-957 | a status that no longer transmits stops the transmitter exactly when the form is, or is put, in data mode and holds an FT mode |
| `TxLinkSafety.StopLostExample` | SDRunoPlugin_TXLink/SDRunoPlugin_TXLinkForm.cpp:949-957 | pressing the split button during a transmission leaves its stop unsent |
| `TxLinkSafety.RttyLosesStop` | SDRunoPlugin_TXLink/SDRunoPlugin_TXLinkForm.cpp:949-957 | RTTY in between leaves the stop of a transmission unsent |
| `TxLinkSafety.OnFrequencyExactly` | SDRunoPlugin_TXLink/SDRunoPlugin_TXLinkForm.cpp:985-1000 | a transmission is keyed on the frequency that the form has recorded for WSJT-X exactly when that handling retunes or the frequency was the last one told |
| `TxLinkSafety.RunsKeyOnFrequency` | SDRunoPlugin_TXLink/SDRunoPlugin_TXLinkForm.cpp:985-1104 | in every run that starts in step with the transmitter, with the port open and no manual tuning of the second receiver, every transmission is keyed on the frequency that the form has recorded |
| `TxLinkRuns.KeysOnStatusFrequency` | SDRunoPlugin_TXLink/SDRunoPlugin_TXLinkForm.cpp:883-904 | in such runs with positive frequencies, a transmission is keyed on the frequency of its status exactly when the form has by then taken over a frequency, or that frequency is the one it started with |
| `TxLinkRuns.InterleavingsKeyOnStatusFrequency` | SDRunoPlugin_TXLink/SDRunoPlugin_TXLinkForm.cpp:880-982 | the same for every interleaving whose wait never times out |
| `TxLinkRuns.FirstFrequencyDroppedExample` | SDRunoPlugin_TXLink/SDRunoPlugin_TXLinkForm.cpp:884-889 | after a start in another mode the first frequency is dropped, and a transmission on 14.074 MHz is keyed on 18.1 MHz |
| `TxLinkRuns.SlotInTurns` | SDRunoPlugin_TXLink/UDP_Server.cpp:285-289 | with the port open, the server's current frequency is that of the last post |
| `TxLinkSafety.RunsStaySynced` | SDRunoPlugin_TXLink/SDRunoPlugin_TXLinkForm.cpp:1074-1104 | in such runs the form's idea of the transmitter's frequency stays right |
| `TxLinkSafety.TuneExactly` | SDRunoPlugin_TXLink/SDRunoPlugin_TXLinkUi.cpp:201-208 | tuning by hand puts the form out of step exactly when it changes the frequency |
| `TxLinkSafety.StaleFrequencyExample` | SDRunoPlugin_TXLink/SDRunoPlugin_TXLinkForm.cpp:1074-1104 | a step while the port is closed counts as sent: the form does not send it afterwards, and the next transmission is off frequency |
| `TxLinkSafety.AnnouncementExactly` | SDRunoPlugin_TXLink/SDRunoPlugin_TXLinkForm.cpp:789-796 | a frequency that counts as sent without having been told is put right exactly when the transmitter announces itself while the port is open |
| `TxLinkSafety.RunsKeepForm` | SDRunoPlugin_TXLink/SDRunoPlugin_TXLinkForm.cpp:883-980 | in every run each {X1} has a preparation before it, and leaving tracking goes with leaving the unsplit mode |
| `TxLinkRuns.RunsKeyForStatus` | SDRunoPlugin_TXLink/SDRunoPlugin_TXLinkForm.cpp:906-957 | in every run each {X1} comes from a handling that found a transmitting FT status and no halt, right behind that status's own mode, offset, symbols and watchdog |
| `TxLinkRuns.KeyedForPost` | SDRunoPlugin_TXLink/SDRunoPlugin_TXLinkForm.cpp:906-957 | and where posts and handlings take turns, that status is the last one posted, command by command |
| `TxLinkRuns.SymbolsExactly` | SDRunoPlugin_TXLink/UDP_Server.cpp:295-303 | the symbols are the encoder's for the status's own mode and message exactly when the encoder answers alike for the mode in which the message first came |
| `TxLinkRuns.StaleSymbolsExample` | SDRunoPlugin_TXLink/UDP_Server.cpp:290-303 | from FT8 to FT4 with the same message, the symbols of FT8 follow {M4} |
| `TxLinkSafety.RunsKeepSlot` | SDRunoPlugin_TXLink/UDP_Server.cpp:285-289 | in every run the frequency slot is empty or holds the current frequency; once one has been taken, an empty slot means the form works on the current one |
| `TxLinkSafety.InterleavingsKeepForm` | SDRunoPlugin_TXLink/SDRunoPlugin_TXLinkForm.cpp:880-982 | all of this for every interleaving of the two threads whose wait never times out |
| `Catalogue.Tokenizer.constructor` | nana vs2022 v143/source/internationalization.cpp:44-65 | what the tokenizer takes for the file: behind a byte order mark, three bytes more than there are |
| `Catalogue.Tokenizer.Read` | nana vs2022 v143/source/internationalization.cpp:67-128 | one token: kind, joined text and rest of the file, with reading past the end and never returning as outcomes of their own |
| `Catalogue.Tokenizer.ReadQuoted` | nana vs2022 v143/source/internationalization.cpp:77-101 | one turn over a literal: its text with escapes untouched, or no movement at all when the closing quote is missing |
| `Catalogue.Tokenizer.ReadLiterals` | nana vs2022 v143/source/internationalization.cpp:74-108 | adjacent literals are joined |
| `Catalogue.Tokenizer.EatWs` | nana vs2022 v143/source/internationalization.cpp:135-149 | the pointer moves to the first character that is no white space |
| `Catalogue.WordAtEnd` | nana vs2022 v143/source/internationalization.cpp:109-126 | a word that ends the file is no keyword |
| `Catalogue.EndlessExactly` | nana vs2022 v143/source/internationalization.cpp:77-105 | the loop over literals runs for ever exactly when a closing quote is missing |
| `Catalogue.Unescape` | nana vs2022 v143/source/internationalization.cpp:242-270 | the in-place loop with its shifting positions is the recursive meaning of the escapes |
| `Catalogue.OtherEscapesStay` | nana vs2022 v143/source/internationalization.cpp:242-270 | of any other pair than the four escapes both characters stay |
| `Translation.Messages.Load` | nana vs2022 v143/source/internationalization.cpp:213-286 | the table after a load: the parsed one with gaps filled from the current one, or nothing changed when the file is refused |
| `Translation.Messages.Merge` | nana vs2022 v143/source/internationalization.cpp:274-282 | the loop over the current table fills missing and empty texts |
| `Translation.Messages.Get` | nana vs2022 v143/source/internationalization.cpp:371-382 | the text, or the id itself with a call of the handler |
| `TranslationRoundTrip.UnescapeEscape` | nana vs2022 v143/source/internationalization.cpp:242-270 | unescaping undoes the printing of any text |
| `TranslationRoundTrip.KeyIsTextExactly` | nana vs2022 v143/source/internationalization.cpp:222-226 | ids are not unescaped: a text is its own key exactly when it has nothing to escape |
| `TranslationRoundTrip.LiteralsPrinted` | nana vs2022 v143/source/internationalization.cpp:74-108 | printed literals are read as one text, however the text is cut and spaced |
| `TranslationRoundTrip.LoadPrinted` | nana vs2022 v143/source/internationalization.cpp:213-272 | loading any printed catalogue gives exactly the table it was printed from |
| `TranslationRoundTrip.LoadMarked` | nana vs2022 v143/source/internationalization.cpp:44-65 | behind a byte order mark a printed catalogue loads to its table exactly when the three bytes behind the buffer leave the last text as it is: no quote first, past white space, or an empty literal with no quote behind it |
| `TranslationRoundTrip.LoadBlank` | nana vs2022 v143/source/internationalization.cpp:67-75 | a file of white space alone is read past its end, an empty one is an empty catalogue |
| `TranslationRoundTrip.LoadMarkAlone` | nana vs2022 v143/source/internationalization.cpp:44-65 | a file that is nothing but a byte order mark is an empty catalogue |
| `TranslationRoundTrip.BrokenEntryRefused` | nana vs2022 v143/source/internationalization.cpp:219-233 | an entry whose id is not followed by the second keyword has the file refused |
| `TranslationRoundTrip.LastEntryDecides` | nana vs2022 v143/source/internationalization.cpp:271 | of entries with the same id the last one counts |
| `TranslationRoundTrip.TranslationFound` | nana vs2022 v143/source/internationalization.cpp:213-382 | after a load every plain text with a non-empty translation is shown as its last translation |
| `TranslationRoundTrip.EmptyTranslationFilled` | nana vs2022 v143/source/internationalization.cpp:213-283 | a text translated by nothing keeps the translation it had |
| `TranslationRoundTrip.OtherTextsKeptExactly` | nana vs2022 v143/source/internationalization.cpp:215-283 | a text not mentioned is shown as before exactly unless it is a built-in one that an earlier translation had changed |
| `TranslationRoundTrip.ResetTextExample` | nana vs2022 v143/source/internationalization.cpp:215-283 | a translated button falls back to its built-in text |
| `Arguments.ReplaceArgs` | nana vs2022 v143/source/internationalization.cpp:384-419 | on every text and all arguments for which the loop ends, the in-place loop gives the result of its turns |
| `Arguments.HarmlessStops` | nana vs2022 v143/source/internationalization.cpp:384-419 | with arguments that neither contain nor begin a marker the loop ends, and is one reading of the text from left to right |
| `Arguments.SelfArgumentNeverStops` | nana vs2022 v143/source/internationalization.cpp:384-419 | an argument that asks for itself is put in for ever |
| `Arguments.ReplaceMarker` | nana vs2022 v143/source/internationalization.cpp:392-418 | one turn at a marker, for any arguments |
| `Arguments.TurnKeeps` | nana vs2022 v143/source/internationalization.cpp:392-418 | with such arguments a turn keeps the meaning of the text and leaves fewer markers behind the offset |
| `Arguments.ArgumentFilled` | nana vs2022 v143/source/internationalization.cpp:396-418 | a marker with a number up to 2^31 - 1 is replaced by its argument, or by nothing where there is none; beyond, the conversion throws |
| `Arguments.TemplateExpands` | nana vs2022 v143/source/internationalization.cpp:384-419 | every argument of a template is put where its number stands, and the texts around stay |
| `Arguments.MarkerAtEndThrows` | nana vs2022 v143/source/internationalization.cpp:396-410 | a marker at the very end makes the number conversion throw |

## Left out

- Character table: `_m_char_dir` is an arbitrary function; where kinds matter it is assumed to give explicit kinds to the five embedding characters only.
- Directional override: the scan saves it with the level but nothing in the source reads it, so characters keep their own kinds.
- Level width: levels are unbounded in the model; `LevelBound` says for which texts 32 bits are enough.
- UnicodeBidi.ShownAsStandard: goes one way, because passes that deviate may still end in the same line.
- Error police: only the answer to a byte that starts no UTF-8 character is a parameter; the police always advances by one byte, as the default one does.
- Four-byte UTF-8 decoding: the source's test for it is never true, so the model has no such branch.
- Locale conversions, wide strings and the `std::codecvt` branch of the charset classes.
- Calendar.Add: years are unbounded; `AddYearBound` says how many days keep them within 32 bits.
- Calendar.Subtract: stops where the unsigned counter goes below zero (`Wrapped`) or the unsigned year does (`YearWrapped`); the source goes on from there through billions of days or years, which the model does not follow.
- Calendar.SubtractNumber: says nothing about those two outcomes.
- Ad9851.IncrementOfHertz: computes the scaled step in real numbers; the rounding of a four-byte or eight-byte double is not modelled.
- TxLinkRuns.KeysOnStatusFrequency: is for runs that find the port open and are not tuned by hand; `StaleFrequencyExample` shows why.
- Tuning by hand: the source sets the transmit frequency from the receiver's event callback, on another thread; the model has that action only between handlings, and their single reads are not interleaved with it.
- Pins, SPI and the EEPROM of the transmitter: a transfer is a list of five bytes.
- Datagram.Packet.GetBool: any byte other than 0 is true; C++ promises nothing for bytes other than 0 and 1.
- Datagram.Packet.DecodeSpot: keeps the time offset as the eight bytes of its double.
- Other datagram types: Heartbeat, Logged, Reply, Clear and the payload of SetFreq, whose writer and reader disagree on the layout and whose command sends a fixed packet.
- Message trimming: the status that is posted carries its message after trimming and after the default for an empty one.
- UDPExitRequest: leaving the wait because the plugin closes.
- Memory model: the two threads' reads and writes are interleaved one by one; weaker orders of the C++ memory model are not.
- Frequencies of the form: whole numbers instead of doubles.
- TxLinkForm.TxLinkForm.AnswerAnnouncement: leaves out the calibration commands that follow; the other messages of the transmitter, and what a reset of it forgets before it announces itself, are not modelled.
- Radio, widgets, browser and annotations: calls into SDRuno and the form's controls have no effect in the model, and the receiver follows the transmitter only through the fields of the form.
- RTTY queue: only its effect on the digital mode is an action of the form.
- Built-in texts: any table of defaults will do.
- Translation.Messages.Load: is the load of a UTF-8 file; texts in the locale's encoding are converted first, and the conversion is not modelled.
- Arguments.ReplaceArgs: can be called only where the loop ends; `HarmlessStops` names the arguments for which it always does.
- Window evaluation after a load, and the other i18n callbacks.
- Everything else in nana: widgets, painting, files, threads and the X11 code.
