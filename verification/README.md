# Verified models of the Binance client library

This project models six components of a C++ client library for the Binance exchange and proves properties
of them that hold for every input, every run or every reachable state.

- **FlatJSON** (`FlatJson*.dfy`). A recursive-descent reader that runs the same code twice: a counting pass
  sizes a flat token array, and a parsing pass fills it with parent links, end links and child counts. The
  model has the reader as a class with a moving cursor and a token array, the recursive descent as functions of
  text and position, the tree a text stands for and the flat layout of a tree. The reader is proved to follow
  the descent and to fill exactly that layout; the descent accepts exactly the documents of a grammar that is
  stated apart from it; the layout is proved to be a correct encoding of a tree; printing and reading again gives the same
  tokens; and searching by skipping subtrees finds exactly the children of the tree.
- **128-bit decimals** (`DecimalWide.dfy`, `DecimalText.dfy`, `DigitText.dfy`). Schoolbook multiplication
  into 256 bits, bit-by-bit long division, packing with overflow and remainder, the text parser and the
  printer, with every machine wrap-around written out.
- **The cross-thread stream buffer** (`StreamBuffer.dfy`). Producer, closer, executor, forwarder and reader
  as an interleaving step relation; safety and progress over all runs.
- **The instrument selector and its aggregates** (`Selector*.dfy`, `WindowModel.dfy`, `Aggregates.dfy`).
  Ticks with hysteresis, minimum hold, cool-off and size bounds over runs of any length, and the ring-buffer
  windows that feed them against a plain sliding sum.
- **Timestamp texts** (`Calendar.dfy`, `DateText.dfy`, `DateCompare.dfy`). The loops from a day count to a
  civil date against the Gregorian calendar, the buffer writer, the recovery of the format from a text, and
  the order of texts.
- **The canonical query string** (`Query.dfy`). Percent-encoding (sections 2.1 and 2.3 of RFC 3986), the
  serialisation of an ordered map, and signing with an arbitrary signature function.

`Options.dfy`, `Arithmetic.dfy` and `Lexicographic.dfy` hold what these share.

## Modelling decisions

- Pointers are indices. `std::vector` and `std::map` are sequences and maps in fields of the objects that
  own them; a `std::map` is the sequence of its entries in key order. Fixed buffers are arrays.
- FlatJSON input is a C string: reading at its end gives NUL. Token storage is fresh, so that child counts
  start at 0. The child counter, key length and value length keep their 16, 8 and 32 bits, with the
  overflow errors the reader reports for them.
- Doubles are reals and clocks are integers counting nanoseconds. The selector's comparison of a signed
  second count with an unsigned one keeps its 64-bit reading.
- The stream buffer is interleaved at its atomic operations, in sequentially consistent order, with one
  executor thread, so that a posted cancel runs only while the forwarder is suspended. A completed wait or
  write resumes in a step of its own, before which further cancels may run. One producer thread.
- Scale 18 and scale factor 10^18 of the decimal type.
- The signature primitive is any function from byte strings to byte strings. `isalnum` is that of the C locale.

## Where the code does not keep a promise

Each of these is stated with the exact condition under which the promise does hold.

- A decimal text with more than 18 fractional digits is meant to be refused, but the digit counter has 8
  bits: "0." followed by 256 zeros and a 5 is read as one half (`WrappedCounter`). Accepted text is read
  exactly if and only if the fraction has at most 18 digits or is zero (`AcceptedIsExactIff`).
- `to_string` prints values that the parsing constructor refuses: the text is read back if and only if the
  magnitude is below 10^38 (`PrintThenParse`).
- `num_chars` is one short for 17-digit numbers and exact for all others (`NumCharsExactIff`), so
  `timestamp_to_chars` drops the first digit of exactly these (`NumericTextIff`).
- A wake that runs before the forwarder waits for the first time is lost together with the item or the
  close it announced (`EarlyWakeIsLost`). A wake can be lost if and only if the buffer is used before its
  forwarder waits (`StrandIff`).
- A `close` from another thread than the producer's can leave an accepted item behind a closed channel
  (`ForeignCloseLosesItem`). An item can be lost if and only if another thread may close
  (`LossIffForeign`); `LossIff` narrows it down to the instant behind the final drain.
- `find(key)` compares with `strncmp`, so keys that agree up to a NUL are taken for the same
  (`NulConfusesKeys`). A search is exact if and only if the key has no NUL in front of its last byte
  (`KeyMatchesExactly`); `DocumentKeyExactIff` gives the condition among the keys a document can hold.
- `dump` fills its result inside an `assert`; without assertions it returns NULs (`Fjson.Dump`).
- A query that already holds a "signature" is signed over a text the receiver does not rebuild
  (`ReceiverRebuilds`, `PipelineAccepted`).
- A scalar root's length is stored in 32 bits unchecked: the root token is that of the tree if and only if
  the length fits (`RootExactIff`).

## Model

| member | source | states |
|---|---|---|
| `FlatJsonLexer.ScannedStringIsBody` | include/binapi/flatjson.hpp:628-664 | the bytes the string loop passes over are a string body on their own, whatever stood around them |
| `FlatJsonLexer.BodyScans` | include/binapi/flatjson.hpp:628-664 | a string body followed by a quote is read up to that quote in every text |
| `FlatJsonLexer.ScannedNumberIsNumber` | include/binapi/flatjson.hpp:666-732 | the bytes of an accepted number are a number on their own |
| `FlatJsonLexer.NumberScans` | include/binapi/flatjson.hpp:666-732 | a number followed by a delimiter is read exactly to the delimiter in every text |
| `FlatJsonGrammar.BodyGrammar` | include/binapi/flatjson.hpp:578-664 | the string loop accepts exactly sequences of plain characters, escapes and multi-byte characters |
| `FlatJsonGrammar.NumberGrammar` | include/binapi/flatjson.hpp:666-732 | the number branches accept exactly digits, fraction and exponent, or hexadecimal digits behind a minus sign, with the leading-zero rule for numbers without sign |
| `FlatJsonParser.Parser.CurChar` | include/binapi/flatjson.hpp:549-558 | white space is skipped and the byte behind it, or nothing at the end, is returned |
| `FlatJsonParser.Parser.CheckAndSkip` | include/binapi/flatjson.hpp:560-576 | moves behind the expected byte or reports whether the text ended or differs |
| `FlatJsonParser.Parser.ExpectLiteral` | include/binapi/flatjson.hpp:607-626 | a literal is accepted exactly where it stands and its span is returned |
| `FlatJsonParser.Parser.ParseString` | include/binapi/flatjson.hpp:628-664 | the loop with escapes and multi-byte characters accepts what the string scanner accepts and returns the span between the quotes |
| `FlatJsonParser.Parser.ParseNumber` | include/binapi/flatjson.hpp:666-732 | the hexadecimal, decimal, fraction and exponent branches accept what the number scanner accepts |
| `FlatJsonParser.Parser.OpenContainer` | include/binapi/flatjson.hpp:740-757 | takes one token for the container, links it and counts it with its parent, or reports which limit stopped it |
| `FlatJsonParser.Parser.CloseContainer` | include/binapi/flatjson.hpp:793-810 | the END token and the end link complete the flat layout of the whole container |
| `FlatJsonParser.Parser.ParseArray` | include/binapi/flatjson.hpp:738-811 | in both modes the array is accepted exactly when the language accepts it, takes as many tokens as its tree has, and fills them with the layout of the tree |
| `FlatJsonParser.Parser.ParseKey` | include/binapi/flatjson.hpp:844-860 | a member takes a token and gets the span of its key, and the cursor is behind the colon |
| `FlatJsonParser.Parser.ParseLeaf` | include/binapi/flatjson.hpp:868-879 | a scalar member extends the layout by one token with its kind and span |
| `FlatJsonParser.Parser.ParseObject` | include/binapi/flatjson.hpp:813-933 | the same as for arrays, with keys |
| `FlatJsonParser.Parser.ParseValue` | include/binapi/flatjson.hpp:935-1036 | every value: acceptance, end position, token count and filled tokens agree with the tree, and every error is explained by the text, the room or a counter |
| `FlatJsonSpelling.DocumentIff` | include/binapi/flatjson.hpp:549-1036 | a text is read as a tree, with nothing but white space behind it, if and only if it is one of the spellings of that tree: its tokens with blanks, tabs, carriage returns and newlines anywhere between them, commas between members where they are not left out, none directly in front of a closing bracket, and no number running into the next |
| `FlatJsonSpelling.ReadSpelled` | include/binapi/flatjson.hpp:738-1036 | every spelling of a tree, anywhere in a text, is read as that tree up to its last character |
| `FlatJsonSpelling.ValueSpelled` | include/binapi/flatjson.hpp:738-1036 | whatever is read anywhere in a text is white space and a spelling of the tree it is read as |
| `FlatJsonErrors.InvalidIsFinal` | include/binapi/flatjson.hpp:560-1036 | a text called invalid is not accepted however it goes on, unless it stops behind a backslash, and then one more character makes it incomplete |
| `FlatJsonErrors.IncompleteIsCutOff` | include/binapi/flatjson.hpp:560-1036 | a text is called incomplete only because it ends: followed by characters nothing can go on with, it is invalid |
| `FlatJsonDocument.NumTokens` | include/binapi/flatjson.hpp:1091-1123 | the counting pass reports the number of tokens of the tree, or the syntax error, and ignores exactly one trailing byte |
| `FlatJsonNavigator.TailIff` | include/binapi/flatjson.hpp:1110-1115 | behind the value the counting pass accepts a single byte of any kind or white space, and nothing else |
| `FlatJsonDocument.ParseTokens` | include/binapi/flatjson.hpp:1044-1079 | the parsing pass over fresh storage fills the layout of the tree or reports why it cannot |
| `FlatJsonDocument.RootExactIff` | include/binapi/flatjson.hpp:1060-1079 | the root tokens are the layout of the tree if and only if the root is no scalar longer than 32 bits count |
| `FlatJsonDocument.CountThenParse` | include/binapi/flatjson.hpp:1060-1123 | two-mode agreement: the counted storage never runs out, is filled exactly, and only a key, value or child counter can still stop the second pass |
| `FlatJsonStructure.NodeStructured` | include/binapi/flatjson.hpp:740-933 | the layout of every container has matching END tokens, nested or disjoint ranges, parents that enclose and are innermost, and child counts of direct children plus one |
| `FlatJsonStructure.FitsIff` | include/binapi/flatjson.hpp:740-933 | a container passes the overflow checks if and only if every key is shorter than 255 bytes, every value shorter than 2^32-1 and every counter fits 16 bits |
| `FlatJsonNavigator.ParsedIsStructured` | include/binapi/flatjson.hpp:740-933 | so has every parsed document |
| `FlatJsonPrinter.GetTokens` | include/binapi/flatjson.hpp:1149-1313 | the loop over the tokens writes the text of the walk, and the length pass computes its length |
| `FlatJsonPrinter.PrintIsRender` | include/binapi/flatjson.hpp:1149-1313 | the walk over the layout of a container writes the text of the tree, with commas exactly between members |
| `FlatJsonContent.ParsedIsWellFormed` | include/binapi/flatjson.hpp:628-732 | every key and value of a parsed tree is a lexeme of its kind inside the text |
| `FlatJsonRoundTrip.RenderReadsBack` | include/binapi/flatjson.hpp:738-1036 | the text of every well-formed tree is accepted to its end and stands for that tree |
| `FlatJsonRoundTrip.RoundTrip` | include/binapi/flatjson.hpp:738-1313 | parsing a container, printing its tokens and parsing that text gives the same types, key and value bytes, links, counts and token number, and fits the counters alike |
| `FlatJsonNavigator.Fjson.Load` | include/binapi/flatjson.hpp:1664-1694 | loading succeeds exactly for the texts of the language that fit, and then holds the layout of the tree; failure keeps the view and never lacks tokens when the object sized its own storage |
| `FlatJsonNavigator.Fjson.Dump` | include/binapi/flatjson.hpp:1696-1703 | the result has the length of the printed text, and is that text in a build with assertions |
| `FlatJsonNavigator.LoadDumpLoad` | include/binapi/flatjson.hpp:1664-1703 | every container that loads dumps to a text that loads again with the same tokens |
| `FlatJsonNavigator.Fjson.Count` | include/binapi/flatjson.hpp:1525-1529 | size is the number of direct children of a container |
| `FlatJsonNavigator.Fjson.FindIndex` | include/binapi/flatjson.hpp:1771-1796 | the range of the i-th direct child for every i below the size, nothing beyond, an exception for what is no array |
| `FlatJsonNavigator.Fjson.FindKey` | include/binapi/flatjson.hpp:1740-1769 | the first direct child whose key matches, or nothing when none does, whatever is nested in the siblings passed over |
| `FlatJsonNavigator.KeyMatchesExactly` | include/binapi/flatjson.hpp:1740-1769 | a key is found under its own name and no other if and only if it has no NUL in front of its last byte |
| `FlatJsonNavigator.DocumentKeyExactIff` | include/binapi/flatjson.hpp:1740-1769 | the same among the keys a document can hold: a search is inexact exactly if something follows the first NUL of the key and the part up to it can begin a document key of that length |
| `FlatJsonNavigator.NulConfusesKeys` | include/binapi/flatjson.hpp:1740-1769 | some key a document can hold is found under a different name |
| `DecimalWide.Mul256Exact` | src/binapi2/fapi/decimal.cpp:37-57 | both words of the schoolbook product make up the exact product: no carry is lost |
| `DecimalWide.DivMod256` | src/binapi2/fapi/decimal.cpp:66-95 | n = q*d + r with r below d, for every 256-bit n and every d above 0, through the wrapping shifts and subtractions |
| `DecimalWide.PackExact` | src/binapi2/fapi/decimal.cpp:98-128 | for every quotient and remainder: overflow is zero exactly for quotients below 2^127, the value is kept modulo 2^127, and the error and the upper word are kept with their sign exactly if they can carry it |
| `DecimalWide.PackedDivision` | src/binapi2/fapi/decimal.cpp:98-128 | a packed quotient is the signed division truncated toward zero, with its remainder |
| `DecimalWide.Mul` | src/binapi2/fapi/decimal.cpp:395-405 | a*b = v*10^18 + err with err below 10^18 in magnitude and of the sign of the product, unless the quotient exceeds 2^127-1, which overflow reports |
| `DecimalWide.Times` | src/binapi2/fapi/decimal.cpp:314-319 | the operator throws exactly when the truncated product does not fit |
| `DecimalWide.Div` | src/binapi2/fapi/decimal.cpp:407-420 | a*10^18 divided by b, truncated, with its remainder; overflow exactly when it does not fit; an exception exactly for b = 0 |
| `DecimalText.ReadInteger` | src/binapi2/fapi/decimal.cpp:150-166 | at most 20 digits are read as their value; the 21st overflows and the first other character is refused |
| `DecimalText.ParseDecimal` | src/binapi2/fapi/decimal.cpp:133-204 | texts with at most 18 fractional digits are read, with no wrap on the way, and every exception has its cause in the text |
| `DecimalText.SignReads` | src/binapi2/fapi/decimal.cpp:140-148 | a plus sign says nothing and a minus sign negates |
| `DecimalText.AcceptedIsExactIff` | src/binapi2/fapi/decimal.cpp:169-204 | an accepted text is read as the number it denotes if and only if the fraction has at most 18 digits or is zero |
| `DecimalText.WrappedCounter` | src/binapi2/fapi/decimal.cpp:169-185 | some text with 257 fractional digits is accepted as another number |
| `DecimalText.ToString` | src/binapi2/fapi/decimal.cpp:218-271 | the digit loops and the trimming of zeros write the canonical text: no leading zeros, no trailing zeros, at least one digit on either side of the point, no negative zero |
| `DecimalText.CanonicalIsText` | src/binapi2/fapi/decimal.cpp:218-271 | the printed text is the only canonical one for its value |
| `DecimalText.TextReadsBack` | src/binapi2/fapi/decimal.cpp:133-271 | the parts of the printed text denote the value, and it is well-formed if and only if the magnitude is below 10^38 |
| `DecimalText.PrintThenParse` | src/binapi2/fapi/decimal.cpp:133-271 | parsing the printed value gives the value below 10^38 and the overflow exception from there on |
| `StreamBuffer.RunInv` | include/binapi2/fapi/detail/threadsafe_stream_buffer.hpp:67-125 | every reachable state keeps the order of items, the pending wake and the order of closing |
| `StreamBuffer.PushOutcome` | include/binapi2/fapi/detail/threadsafe_stream_buffer.hpp:67-73 | in every run a push past its test is accepted unless exactly as many accepted items as the queue holds are not yet taken, a push that meets a closed buffer changes nothing, and nothing else accepts items |
| `StreamBuffer.BurstAccepted` | include/binapi2/fapi/detail/threadsafe_stream_buffer.hpp:67-73 | a burst of pushes into an open buffer is accepted in order up to the capacity of the queue |
| `StreamBuffer.ClosedRefuses` | include/binapi2/fapi/detail/threadsafe_stream_buffer.hpp:67-79 | once closed, with no push under way, nothing is accepted any more |
| `StreamBuffer.WaitFree` | include/binapi2/fapi/detail/threadsafe_stream_buffer.hpp:63-79 | push and close run to their end without any step of another thread, also while the other call is under way |
| `StreamBuffer.Bounded` | include/binapi2/fapi/detail/threadsafe_stream_buffer.hpp:67-113 | queue and channel never hold more than their capacities |
| `StreamBuffer.FillsChannel` | include/binapi2/fapi/detail/threadsafe_stream_buffer.hpp:88-113 | a draining forwarder can fill the channel without any reader |
| `StreamBuffer.NoLostWakeUp` | include/binapi2/fapi/detail/threadsafe_stream_buffer.hpp:67-125 | a forwarder that waits while there is an item or the buffer is closed has a cancel posted or about to be posted, even though cancels that run during a channel write or before a woken forwarder resumes are dropped |
| `StreamBuffer.NothingMissed` | include/binapi2/fapi/detail/threadsafe_stream_buffer.hpp:88-113 | a forwarder that starts out waiting misses no cancel |
| `StreamBuffer.LosslessFifo` | include/binapi2/fapi/detail/threadsafe_stream_buffer.hpp:67-113 | accepted pushes = delivered, channel, item in hand and queue, in this order, in every reachable state |
| `StreamBuffer.ClosedChannelIsComplete` | include/binapi2/fapi/detail/threadsafe_stream_buffer.hpp:75-113 | when the producer's thread closes, everything accepted was written before the channel closes |
| `StreamBuffer.StepProgress` | include/binapi2/fapi/detail/threadsafe_stream_buffer.hpp:88-113 | every step that finishes begun work lowers the amount of pending work |
| `StreamBuffer.ComesToRest` | include/binapi2/fapi/detail/threadsafe_stream_buffer.hpp:88-113 | without new calls the buffer makes no more steps than there is pending work |
| `StreamBuffer.RestIsComplete` | include/binapi2/fapi/detail/stream_buffer_consumer.hpp:69-78 | a buffer at rest has delivered all it accepted except for items stranded by a foreign close, and its channel is closed exactly if it was closed |
| `StreamBuffer.EarlyWakeIsLost` | include/binapi2/fapi/detail/threadsafe_stream_buffer.hpp:88-125 | for every capacity, the run in which the cancel of a push comes before the first wait and the item stays queued with no wake pending |
| `StreamBuffer.StrandIff` | include/binapi2/fapi/detail/threadsafe_stream_buffer.hpp:67-125 | from a fresh buffer, a forwarder can come to sleep over an item or a close with no wake under way if and only if the buffer is used before the forwarder first waits |
| `StreamBuffer.ForeignCloseLosesItem` | include/binapi2/fapi/detail/threadsafe_stream_buffer.hpp:67-113 | for every capacity, the run in which the close of another thread strands an accepted item |
| `StreamBuffer.LossIffForeign` | include/binapi2/fapi/detail/threadsafe_stream_buffer.hpp:67-113 | from a fresh buffer an accepted item can end up behind the closed channel if and only if another thread than the producer's may close |
| `StreamBuffer.LossIff` | include/binapi2/fapi/detail/threadsafe_stream_buffer.hpp:88-113 | at the instant behind the final drain an item can still be lost exactly if one is queued or a push is past its test of the closed flag |
| `StreamBuffer.ReadBatchLoop` | include/binapi2/fapi/detail/stream_buffer_consumer.hpp:42-65 | a batch is the front of the channel, never longer than allowed, and from an open channel as long as allowed or all there is; the rest stays |
| `Selector.SelectorObject.constructor` | examples/binapi2/fapi/async-recorder/selector.cpp:91-100 | exactly the mandatory symbols are active at the start |
| `Selector.SelectorObject.ScoreAll` | examples/binapi2/fapi/async-recorder/selector.cpp:133-143 | every known symbol has its new score recorded and appears in a list sorted best first |
| `Selector.SelectorObject.EvictPhase` | examples/binapi2/fapi/async-recorder/selector.cpp:155-186 | the two loops evict exactly the symbols judged out and report each once with its score |
| `Selector.SelectorObject.AdmitLoop` | examples/binapi2/fapi/async-recorder/selector.cpp:191-224 | both admission loops add what the walk over the ranking adds, and report it in order |
| `Selector.SelectorObject.Tick` | examples/binapi2/fapi/async-recorder/selector.cpp:127-227 | a tick is one step of the tick relation and keeps the invariant |
| `SelectorModel.WalkSet` | examples/binapi2/fapi/async-recorder/selector.cpp:191-224 | an admission loop only adds, never beyond its cap, keeps flags and set together, reports what it adds, and without a score floor reaches the cap or takes everything |
| `SelectorModel.WalkEntry` | examples/binapi2/fapi/async-recorder/selector.cpp:191-224 | symbols added are stamped now with no streak, and all other entries are untouched |
| `SelectorModel.WalkBest` | examples/binapi2/fapi/async-recorder/selector.cpp:191-205 | nobody left out scores above anybody added |
| `SelectorModel.WalkFloor` | examples/binapi2/fapi/async-recorder/selector.cpp:191-205 | with a score floor everybody at or above it is taken while there is room and nobody below it |
| `SelectorModel.ScoreResponds` | examples/binapi2/fapi/async-recorder/selector.cpp:102-125 | each input raises the score by its weight, and an empty aggregate scores nothing |
| `SelectorRuns.TickKeeps` | examples/binapi2/fapi/async-recorder/selector.cpp:127-227 | one tick keeps flags, mandatory members and the size bound, reaches the floor, equals its diffs replayed and prefers better scores |
| `SelectorRuns.SetInvariants` | examples/binapi2/fapi/async-recorder/selector.cpp:91-227 | the same across all ticks of every run |
| `SelectorRuns.EntryStep` | examples/binapi2/fapi/async-recorder/selector.cpp:155-205 | over one tick an active symbol was admitted now or was active, not evicted, and only judged |
| `SelectorRuns.History` | examples/binapi2/fapi/async-recorder/selector.cpp:155-205 | at every point of every run the stamps of an active symbol are its latest admission and the start of its current streak below the threshold |
| `SelectorRuns.EvictionTiming` | examples/binapi2/fapi/async-recorder/selector.cpp:155-186 | a symbol removed in any run is not mandatory, was admitted at least min_hold + cool-off before, and scored below remove_score at every tick of a final streak of at least the cool-off |
| `SelectorRuns.EvictionIff` | examples/binapi2/fapi/async-recorder/selector.cpp:155-186 | in every run an active symbol that is not mandatory is removed at a tick if and only if its hold was over at some tick from which on it scored below remove_score for at least the cool-off |
| `SelectorRuns.AdmissionRule` | examples/binapi2/fapi/async-recorder/selector.cpp:191-224 | at every tick, while there is room everybody at or above add_score is active; additions carry their score; one below add_score only fills up to min_active |
| `SelectorRuns.RemovalRule` | examples/binapi2/fapi/async-recorder/selector.cpp:178-186 | removals carry the recorded score, which is below remove_score, and their reason, and a symbol that is not active has no streak |
| `SelectorRuns.ClockGoneBack` | examples/binapi2/fapi/async-recorder/selector.cpp:160-174 | a clock that has gone back by a second or more makes hold and cool-off count as over |
| `WindowModel.RunHolds` | examples/binapi2/fapi/async-recorder/aggregates.hpp:47-105 | after every ordered trace each bucket is the total of the updates with its bucket index, and head_time_ is the start of the current bucket |
| `WindowModel.WindowIsSlidingSum` | examples/binapi2/fapi/async-recorder/aggregates.hpp:47-105 | the sum over the ring is the plain sum of the updates whose bucket index is among the last n, also behind gaps longer than the window |
| `WindowModel.WindowAge` | examples/binapi2/fapi/async-recorder/aggregates.hpp:82-105 | an update younger than all but one of the buckets counts, and one as old as all of them does not |
| `WindowModel.WiderHoldsMore` | examples/binapi2/fapi/async-recorder/aggregates.hpp:213-223 | with nonnegative updates a window of longer buckets holds at least as much |
| `Aggregates.TfWindow.AdvanceTo` | examples/binapi2/fapi/async-recorder/aggregates.hpp:82-105 | turning the ring bucket by bucket is sliding the window by the elapsed buckets |
| `Aggregates.TfWindow.Update` | examples/binapi2/fapi/async-recorder/aggregates.hpp:47-52 | the ring shows the slid window with the delta in its newest bucket |
| `Aggregates.TfWindow.Sums` | examples/binapi2/fapi/async-recorder/aggregates.hpp:55-68 | the sums in storage order are the sums of the window |
| `Aggregates.DeltaConservation` | examples/binapi2/fapi/async-recorder/screener.cpp:131-160 | for volume and trade count: what was credited plus the first total = last total plus the totals before each wrap |
| `Aggregates.CreditsPlausible` | examples/binapi2/fapi/async-recorder/screener.cpp:131-160 | nonnegative totals in time order give nonnegative updates in time order |
| `Aggregates.SymbolAgg.OnTicker` | examples/binapi2/fapi/async-recorder/screener.cpp:131-160 | after any number of entries the cached totals are the last ones and all three windows are the runs over the credits |
| `Aggregates.SymbolAgg.Volumes` | examples/binapi2/fapi/async-recorder/aggregates.hpp:213-223 | vol_1m, vol_5m and vol_1h are the sliding sums of the credits and never decrease in this order |
| `Aggregates.SymbolAgg.Trades` | examples/binapi2/fapi/async-recorder/aggregates.hpp:213-223 | the same for trades_1m, trades_5m and trades_1h |
| `Calendar.DaysBeforeYearClosed` | include/binapi/dtf.cpp:215-234 | the years the loop takes off add up to the closed form of the Gregorian calendar |
| `Calendar.MonthTable` | include/binapi/dtf.cpp:202-214 | the month table is the Gregorian one, one day behind from March of a leap year on |
| `Calendar.FindYear` | include/binapi/dtf.cpp:226-235 | the loop finds the year of the day and leaves the day of the year |
| `Calendar.CivilDate` | include/binapi/dtf.cpp:226-248 | year loop, leap-day adjustment and month loop give the valid date with exactly this day number |
| `Calendar.DateOrder` | include/binapi/dtf.cpp:198-248 | day numbers order and identify dates |
| `Calendar.YearHasFourDigits` | include/binapi/dtf.cpp:226-235 | within 64 bits of nanoseconds the year is between 1970 and 2554 |
| `DateText.NumCharsExactIff` | include/binapi/dtf.cpp:59-70 | num_chars is the number of digits if and only if there are not 17 of them |
| `DateText.Utoa` | include/binapi/dtf.cpp:72-140 | n digits written from the right over any bytes are the number in n digits, and nothing else changes |
| `DateText.TimestampToChars` | include/binapi/dtf.cpp:144-153 | the buffer starts with as many digits of the scaled timestamp as num_chars says |
| `DateText.NumericTextIff` | include/binapi/dtf.cpp:59-153 | these digits are the number if and only if it does not have 17 digits |
| `DateText.SplitTimestamp` | include/binapi/dtf.cpp:198-248 | every 64-bit timestamp is the nanosecond of the date and time computed from it |
| `DateText.PutFraction` | include/binapi/dtf.cpp:282-290 | the fraction is padded with zeros to its width |
| `DateText.TimestampToDtChars` | include/binapi/dtf.cpp:192-293 | year, month from 1, day, hours, minutes, seconds and the fraction of the timestamp stand at their places in the buffer in the order chosen, with the separators chosen between them, and the length is returned |
| `DateText.TextShown` | include/binapi/dtf.cpp:173-293 | the same of the text of every moment, position by position |
| `DateCompare.FlagsRecovered` | include/binapi/dtf.cpp:316-330 | for every moment and every choice of flags the flags are recovered from the text |
| `DateCompare.TextOrder` | include/binapi/dtf.cpp:192-293 | with the year first, byte order of two texts of one format is the order of the timestamps at its precision |
| `DateCompare.TextEqual` | include/binapi/dtf.cpp:192-293 | two such texts are equal exactly if the timestamps are, at that precision |
| `Query.PercentEncode` | src/binapi2/fapi/signing.cpp:68-82 | the loop writes unreserved bytes and upper-case escapes of all others |
| `Query.EncodedByte` | src/binapi2/fapi/signing.cpp:68-82 | by code, which bytes stand for themselves and how every other byte is escaped |
| `Query.EncodeReadsBack` | src/binapi2/fapi/signing.cpp:68-82 | every byte string is recovered from its encoding, which is canonical and holds only unreserved bytes and '%' |
| `Query.CanonicalIff` | src/binapi2/fapi/signing.cpp:68-82 | a text that decodes is the encoding of its bytes if and only if it is canonical |
| `Query.BuildQueryString` | src/binapi2/fapi/signing.cpp:88-101 | the loop joins the encoded pairs with '&' between them |
| `Query.Separators` | src/binapi2/fapi/signing.cpp:88-101 | by code, the bytes between key and value and between pairs |
| `Query.BuildReadsBack` | src/binapi2/fapi/signing.cpp:88-101 | the query is recovered from its text |
| `Query.BuildInjective` | src/binapi2/fapi/signing.cpp:84-101 | queries with the same text are the same |
| `Query.SortedUnique` | src/binapi2/fapi/signing.cpp:84-88 | a map has one ordered sequence of entries, so that the text depends on its contents alone |
| `Query.QueryMap.Assign` | src/binapi2/fapi/signing.cpp:103-119 | an assignment keeps the order and changes the contents at its key alone |
| `Query.QueryMap.InjectAuth` | src/binapi2/fapi/signing.cpp:103-108 | recvWindow and timestamp are set and nothing else changes |
| `Query.QueryMap.SignQuery` | src/binapi2/fapi/signing.cpp:110-119 | the signature of the text of the old map is set and nothing else changes |
| `Query.Execute` | include/binapi2/fapi/rest/pipeline.hpp:73-88 | a request carries, in target or body, exactly the text of the query, signed if asked |
| `Query.ReceiverRebuilds` | src/binapi2/fapi/signing.cpp:84-119 | the sent text decodes to the signed map, and without its signature rebuilds the signed text if and only if the map held no signature before |
| `Query.PipelineAccepted` | include/binapi2/fapi/rest/pipeline.hpp:73-79 | a receiver that signs what it rebuilds accepts the request exactly if both texts have the same signature, and they are the same text exactly if the caller passed no signature |

## Left out

- FlatJSON: the byte 0xFF, which the reader uses as its end marker and asserts against in multi-byte characters.
- FlatJSON: printing with indentation, dumping a scalar root, dumping a view of a part, key lists and the conversions of values to numbers and strings.
- FlatJsonNavigator.Fjson.Load: needs storage that is empty or fresh; a second load into used storage counts children on top of the old counters.
- FlatJSON: conformance to RFC 8259; the accepted language is the reader's own, with optional commas and an unchecked single trailing byte.
- ToString: does not cover the most negative 128-bit value, whose negation is a signed overflow; `PrintThenParse` neither.
- ParseDecimal: does not say what happens when the unchecked accumulator of a fraction longer than 18 digits leaves 128 bits, which has no defined outcome.
- Decimals: conversion to floating point and the scientific notation of errors and overflows.
- Stream buffer: weaker memory orders than sequential consistency, the coroutine runtime and its channel implementation, and the counters of the other stream buffers.
- Selector: wall-clock stamps of events, rounding and NaN of doubles, the signal file and the coroutine that drives the ticks. Ties of equal scores may fall in any order.
- Aggregates: synthetic one-minute bars, true range and NATR, the map of symbols and the loop over a ticker array; one symbol's entries are modelled.
- Timestamps: reading the clock. `FlagsRecovered` needs one choice in every group of flags.
- Signing: HMAC, Ed25519, base64 and the choice between them; the timestamp's own text is a parameter.
- Order books, transports, endpoint tables, reconnection, reports and user interfaces.
