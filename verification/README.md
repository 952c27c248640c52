# Models of PyPy's library layer

This project models eight components of the repository: the block-linked deque, the CSV reader and
writer, marshal, calendar and duration arithmetic, SHA-256, the stackless scheduler with its
channels, pytest's setup stack and dotviewer's message framing. Code that changes objects or loops
over locals is written as classes and methods with the same branches, and each method is proved
against a function that says what it computes. What the code is for is then proved of those
functions, for all inputs, all runs or all reachable states.

`dafny verify dfyconfig.toml` checks everything.

## What is here

| files | subject |
|---|---|
| `Wrappers`, `Arithmetic`, `SeqOps`, `Grid`, `Deque` | `lib_pypy/_collections.py`: the deque on its doubly linked blocks refines a sequence |
| `CsvReader`, `CsvScan`, `CsvLines`, `CsvSplit` | `lib_pypy/_csv.py`: the reader's automaton, its batched scan, and what it makes of lines, said field by field without an automaton |
| `CsvWriter`, `CsvQuoting`, `CsvRoundTrip`, `CsvEscapes`, `CsvLag`, `CsvSingle` | the writer, what it quotes and escapes, and reading back what was written, without an escape character, with one, and with one but without doublequote |
| `MarshalFormat`, `MarshalReader`, `MarshalRoundTrip`, `MarshalAgreement`, `MarshalPrefix`, `MarshalObjects` | `lib_pypy/_marshal.py`: the writer, both readers, the round trip, where the readers differ, input that is cut short, and the bytes |
| `Calendar`, `Durations`, `Datetimes` | `lib_pypy/datetime.py`: ordinals, ISO weeks, `timedelta`, `tmxxx` and datetime arithmetic |
| `Sha256Rounds`, `Fips180`, `Sha256`, `Sha256Objects`, `Sha256Known` | `lib_pypy/_sha256.py`: unrolled rounds against FIPS 180-4, streaming update, padding, `digest`, and a digest that is known |
| `Tasklets`, `TaskletRuns`, `TaskletErrors`, `Stackless` | `lib_pypy/stackless.py`: the run queue and channels as a state machine, over all runs, and what RuntimeError leaves behind |
| `SetupLog`, `SetupStates` | `_pytest/runner.py`: setup and teardown against a machine that reads their log |
| `Msgstruct`, `MsgstructRoundTrip`, `MsgstructIO` | `dotviewer/msgstruct.py`: encoding, incremental decoding, messages from a stream in pieces |

Python's unbounded integers are `int`, except in SHA-256, where words are bit vectors and sums that
the code masks late are 64 bits wide, which they cannot exceed. Exceptions are error values of the
result. Python's `//`, `%`, `divmod` and `>>` with a positive right operand agree with Dafny's `/`
and `%`; `timedelta.__div__` also takes negative ones, for which `Durations.FloorDiv` floors.

## What turned out to be different from what one would expect

- The batched scan of an unquoted CSV field loses a character when exactly one ordinary character
  comes before an escape character in one scan (`lib_pypy/_csv.py:266`). `CsvScans.BatchExact` says
  that, on a line that can be parsed, the scan gives what one character at a time gives exactly if
  the text has no such place; `CsvScans.SkipExample` is an instance. `CsvLags.BatchIsLagged` says, for
  every line and with its errors, what the batches do give.
- A CSV dialect with an escape character does not read back what it wrote if a field has that
  character: it is written without being escaped. `CsvEscapes.RoundTripExact` says that there is no
  other case.
- Without doublequote, where quotes are escaped, the lost character above spoils them, and some fields
  with the escape character come back all the same because two errors cancel.
  `CsvSingles.RoundTripExactSingle` has the exact condition on each field: (1) it has the escape
  character, and behind the first one there are quotes, at least one, and nothing else; or (2) it does
  not have it, and it is written in quotes because of QUOTE_ALL, a delimiter, CR or LF; or (3) it does
  not have it, and no quote in it has exactly one other character between itself and the field's first
  character or another quote before it. `CsvSingles.EscapedQuoteLost` and `CsvSingles.EscapeAndQuoteKept` are instances.
- With QUOTE_NONE the escape character is escaped after the line terminator, so that a newline in a field
  gets two of them, the second one escaped, and ends the record after all
  (`CsvQuotings.TerminatorUnprotected`, `CsvQuotings.PlainEscapes`).
- `_Unmarshaller` over `_StringBuffer` accepts a byte string that is cut short, where
  `_FastUnmarshaller` raises EOFError. Otherwise they succeed on the same bytes, with the same value
  and position (`MarshalAgreements.ReadersAgree`, `MarshalAgreements.TruncatedText`).
- Hash objects made by `copy()` share their buffer, so that bytes fed to one can replace bytes of the
  other. `Sha256Objects.SharedUpdate` says exactly when an object survives an update of the other one,
  `Sha256Objects.NeverFedAgain` when a copy does that is not fed any more; `Sha256Objects.SharedCopy`
  is an instance. Even `digest()`, which works on such a copy, writes the byte 0x80 into the buffer: that
  is behind the live bytes of its own object, but a copy with more live bytes loses one, unless it was
  that byte (`Sha256Objects.SharedDigest`, `Sha256Objects.DigestedOriginal`).
- A tasklet that catches the RuntimeError of a call stays in the queue of its channel. If its next call
  meets itself there, it returns its own argument; otherwise, what returns next is right
  (`TaskletErrors.NextCall`).
- For a `date`, `d - t` and `d + (-t)` differ if the duration has a part of a day, because each looks at
  the days of its own duration only (`Datetimes.SubOrAddNegated`).
- A message of type NUL comes back as itself only if it is so long that it is wrapped
  (`MsgstructRoundTrip.RoundTrip` has the exact condition).
- `_prepare_exc` is never removed from a node. While no setup raises, `prepare` fails exactly if some
  node that stays set up raised in any setup before, even if it was set up again since
  (`SetupStates.PrepareInPeace`, `SetupStates.StaleFailure`).

## Model

| member | source | states |
|---|---|---|
| Deques.Make | lib_pypy/_collections.py:34-42 | A negative maxlen is a ValueError; otherwise the new deque holds the last maxlen elements of the iterable, or all of them |
| Deques.Deque.constructor | lib_pypy/_collections.py:29-32 | A new deque is empty and well formed: one block, no links, nothing in its cells |
| Deques.Deque.Clear | lib_pypy/_collections.py:48-53 | Whatever the deque was like, it is empty, well formed and on a block of its own afterwards, and the state counter is 0 |
| Deques.Deque.StepRight | lib_pypy/_collections.py:56-63 | The right cursor moves on by one cell, onto a new linked block when it leaves the last one; the contents stay where they are |
| Deques.Deque.StepLeft | lib_pypy/_collections.py:70-77 | The mirror image of StepRight |
| Deques.Deque.Append | lib_pypy/_collections.py:55-67 | The contents become the last maxlen elements of the old ones followed by x; the chain of blocks, the cursors, the empty cells and the length stay consistent; below maxlen nothing is dropped |
| Deques.Deque.AppendLeft | lib_pypy/_collections.py:69-81 | The contents become the first maxlen elements of x followed by the old ones, and the representation stays consistent |
| Deques.Deque.Pop | lib_pypy/_collections.py:95-114 | Takes the last element off, frees a block or recentres when its last cell is left, or raises IndexError on an empty deque and changes nothing |
| Deques.Deque.PopLeft | lib_pypy/_collections.py:116-135 | The same at the left end |
| Deques.Deque.LeaveLeft | lib_pypy/_collections.py:124-134 | Once the left cell was emptied, the cursor moves on by one; at the end of a block the block is unlinked, or if it is the only one the deque, which is empty then, is recentred; it stays well formed |
| Deques.Deque.LeaveRight | lib_pypy/_collections.py:103-113 | The same at the right end |
| Deques.Deque.Recentre | lib_pypy/_collections.py:106-108 | An empty deque on one block goes back to its middle, cells 16 and 15, and stays well formed |
| Deques.Deque.Extend | lib_pypy/_collections.py:83-87 | Extending is appending element by element, and the bound drops exactly what it drops from old contents and new elements together |
| Deques.Deque.ExtendSelf | lib_pypy/_collections.py:84-85 | A deque extended by itself doubles, up to maxlen, because its elements are copied first |
| Deques.Deque.ExtendLeft | lib_pypy/_collections.py:89-93 | The elements end up in reverse order in front, and the bound drops from the right |
| Deques.ExtendStep | lib_pypy/_collections.py:66-67 | Dropping after every element leaves the same as dropping once at the end |
| Deques.ExtendLeftStep | lib_pypy/_collections.py:80-81 | The same for appending on the left |
| Deques.Deque.Rotate | lib_pypy/_collections.py:152-168 | For every integer k the contents are rotated by k modulo the length; nothing is dropped, even at maxlen; and the state counter says that no more pop and append pairs were made than the shorter way round needs |
| Deques.Deque.Shorten | lib_pypy/_collections.py:156-162 | The number of steps that is left of k |
| SeqOps.ShortWay | lib_pypy/_collections.py:156-162 | The shortened number of steps is at most half the length, rounded up, and rotates to the same place |
| SeqOps.RotatedAt | lib_pypy/_collections.py:152-168 | A rotation by k, of either sign and any size, moves the element at i to i + k modulo the length |
| Deques.Deque.Turn | lib_pypy/_collections.py:163-168 | The two loops rotate by n, with one pop and one append for each step |
| Deques.Deque.TurnRightOnce | lib_pypy/_collections.py:164 | A pop and an appendleft move the last element to the front, also when the deque is full |
| Deques.Deque.DelItem | lib_pypy/_collections.py:296-310 | For indices of either sign, in range, exactly that element is removed and the others keep their order; out of range, IndexError and nothing changes |
| SeqOps.DeleteByRotation | lib_pypy/_collections.py:301-303 | Rotating an element to the left end, dropping it and rotating back removes just that element |
| SeqOps.DeleteByRotationRight | lib_pypy/_collections.py:308-310 | The same by way of the right end |
| Deques.Deque.Remove | lib_pypy/_collections.py:144-150 | Removes the first occurrence of a value and nothing else, or raises ValueError if there is none |
| Deques.Deque.GetRef | lib_pypy/_collections.py:259-286 | The block and cell that are found are those of the abstract element, for both index signs; IndexError exactly for indices outside -len to len-1 |
| Deques.Deque.GetRefFromLeft | lib_pypy/_collections.py:260-272 | The search over the blocks from the left reaches the cell of the element |
| Deques.Deque.GetRefFromRight | lib_pypy/_collections.py:273-285 | The search over the blocks from the right reaches the cell of the element |
| Deques.Deque.GetItem | lib_pypy/_collections.py:288-290 | The element at an index of either sign, or IndexError |
| Deques.Deque.SetItem | lib_pypy/_collections.py:292-294 | Replaces just that element, or raises IndexError and changes nothing |
| Deques.Deque.Reverse | lib_pypy/_collections.py:170-196 | In place, over all blocks, the contents are reversed; the source's assertion holds in every turn: the two blocks differ as lists or the left index is the smaller one; and no link that is followed is null |
| Deques.Deque.BlocksDiffer | lib_pypy/_collections.py:178 | Two different blocks of a deque are never equal as lists, whatever their cells hold: following the left links, one of them comes to an end sooner |
| Deques.Deque.SwapAndStep | lib_pypy/_collections.py:176-196 | One turn: the outermost pair not yet swapped is, and both positions move on to the next cells, across block borders |
| SeqOps.FlippedHalf | lib_pypy/_collections.py:176 | After half the length in swaps, the sequence is the reversed one |
| Deques.Deque.ToList | lib_pypy/_collections.py:215-229 | The iteration over blocks and their live slices gives the contents in order |
| Deques.Deque.ToReversedList | lib_pypy/_collections.py:234-248 | The reversed iteration gives them in reverse order |
| Deques.Deque.Count | lib_pypy/_collections.py:137-142 | The multiplicity of the value in the contents |
| CsvReaders.Reader.ScanField | lib_pypy/_csv.py:253-284 | The batched scan over an unquoted field does what the function Scan says, with the same position, partial field and error |
| CsvReaders.Reader.ParseProcessChar | lib_pypy/_csv.py:251-374 | All eight states: new state, field, fields, position and error are those of the function Process |
| CsvReaders.Setup.Process | lib_pypy/_csv.py:374 | The position returned is beyond the one passed in and not beyond the line, so the loop over a line ends |
| CsvReaders.Setup.Scan | lib_pypy/_csv.py:253-284 | The same for the batched scan, whose position never goes back |
| CsvReaders.Setup.Span | lib_pypy/_csv.py:275-280 | The run of ordinary characters that a scan takes at once is the longest one |
| CsvReaders.Reader.ParseEol | lib_pypy/_csv.py:376-404 | The end of a line saves, continues or does nothing, by state |
| CsvReaders.Reader.ParseAddChar | lib_pypy/_csv.py:413-416 | Adds to the field unless that would pass the field limit, which is an error and leaves the field alone |
| CsvReaders.Reader.ParseSaveField | lib_pypy/_csv.py:406-411 | The field moves to the end of the fields |
| CsvReaders.Reader.ParseLine | lib_pypy/_csv.py:237-242 | One line, position by position, with the NUL check |
| CsvReaders.Reader.Next | lib_pypy/_csv.py:224-249 | Reads lines until a record ends: the record, or the error, and the lines that are left |
| CsvReaders.Setup.Next | lib_pypy/_csv.py:224-249 | Every record takes at least one line, and at the end of input there is none |
| CsvReaders.ReadRows | lib_pypy/_csv.py:224-249 | Reading all records in a loop gives what ReadAll says |
| CsvScans.BatchIsCharwise | lib_pypy/_csv.py:253-284 | Unless a scan skips a character, a whole line in batches ends in the same state, fields, partial field and error as one character at a time |
| CsvScans.NoEscapeNoSkip | lib_pypy/_csv.py:264-267 | Without an escapechar no scan skips a character, so the batches are always exact |
| CsvScans.BatchExact | lib_pypy/_csv.py:264-267 | On a line that can be parsed a character at a time, the batches give the same exactly if nowhere in the text an unquoted field is opened and then has one ordinary character and an escape character |
| CsvScans.SkipsInText | lib_pypy/_csv.py:264-267 | The places where a scan skips a character are places of the text, told by the plain automaton: reading in batches comes upon one exactly if there is one |
| CsvScans.SkipExample | lib_pypy/_csv.py:266 | One ordinary character and then an escape: the batched scan loses the escape, and the line is split where it should not be |
| CsvScans.ScanFaithful | lib_pypy/_csv.py:253-284 | One call of the scan that does not skip is a run of single steps |
| CsvScans.BackOneFaithful | lib_pypy/_csv.py:264-267 | The step back before an escape is harmless after two ordinary characters or more |
| CsvScans.SkippingShows | lib_pypy/_csv.py:266 | A lost character never comes back: the result stays different to the end of the line |
| CsvLines.LineRead | lib_pypy/_csv.py:224-404 | On every line without the escape character, what the automaton makes of it is what the description by fields says: a field in quotes or not, doubled quotes, text behind a closing quote, newlines at the end or in the middle, and the field limit |
| CsvLines.NextReads | lib_pypy/_csv.py:224-249 | From any lines without it, next returns the record of the description, over as many lines as quotes stay open; NUL and the end of input inside quotes are errors |
| CsvLines.PlainRead | lib_pypy/_csv.py:253-284 | Outside of quotes the batched scan takes the field to the next delimiter or newline, quotes included |
| CsvLines.StartRead | lib_pypy/_csv.py:294-318 | At the start of a field: spaces are skipped if the dialect says so, a quote opens quotes, a delimiter or newline ends an empty field |
| CsvLines.QuotedRead | lib_pypy/_csv.py:323-364 | Inside quotes the field goes on to the closing quote; a doubled quote is one |
| CsvSplits.SplitJoins | lib_pypy/_csv.py:306-317 | The pieces of a text, joined with delimiters, are the text; there is one more of them than there are delimiters; no piece has one |
| CsvSplits.SplitOfJoin | lib_pypy/_csv.py:306-317 | No other pieces without delimiters do that |
| CsvSplits.NextIsSplit | lib_pypy/_csv.py:286-317 | A line of plain text, in any dialect, with no newline, any newlines behind it, or more text behind a newline: next returns the pieces between its delimiters, without leading spaces if those are skipped; or the error of the field limit, or of the newline |
| CsvSplits.EmptyLine | lib_pypy/_csv.py:286-290 | A line of newlines only, or an empty one, is a record without fields |
| CsvSplits.NextOfQuoted | lib_pypy/_csv.py:323-364 | A line that starts with a field in quotes: text behind the closing quote is added to the field up to the next delimiter and the rest is split, strict or not and with doublequote or not; exactly a strict dialect with doublequote refuses text there that does not start with the delimiter |
| CsvSplits.Unclosed | lib_pypy/_csv.py:226-234 | Quotes that the input never closes are an error if they hold anything, and otherwise the end of the input |
| CsvSplits.EscapedStart | lib_pypy/_csv.py:303-322 | An escaped character of any kind starts a field |
| CsvSplits.EscapedEnd | lib_pypy/_csv.py:391-393 | An escape character at the end of a line is a newline in the field, which goes on in the next line |
| CsvSplits.EscapedEndInQuotes | lib_pypy/_csv.py:396-398 | The same inside quotes |
| CsvWriters.Writer.JoinAppend | lib_pypy/_csv.py:435-478 | Delimiter, doubling, escaping and quoting of one field, as FieldText says, or an error |
| CsvWriters.Writer.WriteRow | lib_pypy/_csv.py:482-515 | Writes the text of the whole row, or nothing at all if a field has an error |
| CsvWriters.Writer.WriteRows | lib_pypy/_csv.py:517-519 | Writes the rows up to the first one with an error |
| CsvQuotings.MinimalIff | lib_pypy/_csv.py:446-457 | With QUOTE_MINIMAL, in any valid dialect, a field is written as it is exactly if it has no delimiter, quote character, escape character or character of the line terminator |
| CsvQuotings.QuotedExactly | lib_pypy/_csv.py:446-475 | With QUOTE_MINIMAL or QUOTE_ALL: exactly when a field goes in quotes, exactly when it fails, and what is inside |
| CsvQuotings.PlainEscapes | lib_pypy/_csv.py:441-465 | With QUOTE_NONE each special character, and no other, has the escape character before it, all in their order; those of the line terminator have it twice if the special characters are all different, the others once |
| CsvQuotings.PlainFails | lib_pypy/_csv.py:462-464 | Without an escape character QUOTE_NONE fails exactly if the field has a special character |
| CsvQuotings.TerminatorUnprotected | lib_pypy/_csv.py:441-465 | With QUOTE_NONE a field that is a newline of the line terminator is read back as the escape character |
| CsvQuotings.RowIsJoined | lib_pypy/_csv.py:482-515 | A row is the texts of its fields with delimiters between them, and the line terminator |
| CsvQuotings.PlainRowBack | lib_pypy/_csv.py:224-519 | In any dialect with QUOTE_MINIMAL, a row of fields without special characters is written as they stand with delimiters between them, and next splits the line into just these fields |
| CsvRoundTrips.FeedField | lib_pypy/_csv.py:447-475 | The text of a field, quoted or not, is parsed back to that field |
| CsvRoundTrips.RecordRow | lib_pypy/_csv.py:482-515 | The text of a row, with any text behind it, is one record with just the values of the row: empty rows, single empty fields, embedded quotes, delimiters and newlines included |
| CsvRoundTrips.RecordIsNext | lib_pypy/_csv.py:224-249 | A record that the automaton finds in a text is the one that next returns when the text comes line by line |
| CsvRoundTrips.RoundTrip | lib_pypy/_csv.py:224-519 | Writing any rows without NUL and within the field limit, splitting the output after each newline and reading it gives exactly the values of those rows, strict or not, with quoting MINIMAL or ALL |
| CsvRoundTrips.RoundTripUnescaped | lib_pypy/_csv.py:224-519 | With neither an escape character nor doublequote, writing stops with an error exactly at the first row that has a quote character in a field, and the rows before it are read back; with doublequote, all rows are |
| CsvRoundTrips.WriteAndRead | lib_pypy/_csv.py:517-519 | The same of the writer and reader objects |
| CsvEscapes.RoundTripExact | lib_pypy/_csv.py:224-519 | With an escape character, quoting MINIMAL or ALL and doublequote, any rows written are read back exactly if no field has the escape character |
| CsvEscapes.CountWritten | lib_pypy/_csv.py:446-475 | The writer puts the escape characters of the fields into the text, and no others: it never escapes one |
| CsvEscapes.ReadAllWeight | lib_pypy/_csv.py:224-416 | In any dialect and on any lines, what is read has at most as many of them as the lines |
| CsvEscapes.RunLineReaches | lib_pypy/_csv.py:253-284 | A line read in batches passes through every position at which no unquoted field is open, in the state that single steps lead to |
| CsvEscapes.NextLoses | lib_pypy/_csv.py:324-341 | An escape character that stands in a quoted field is not in the record that is read |
| CsvEscapes.RowReaches | lib_pypy/_csv.py:446-475 | The first escape character of a row stands in a quoted field, after text that is read as it was written |
| CsvEscapes.RowReadBack | lib_pypy/_csv.py:224-249 | A row without it is read back, whatever rows follow |
| CsvLags.BatchIsLagged | lib_pypy/_csv.py:253-284 | On every line and from every state, reading in batches gives what an automaton gives that takes one character at a time and counts ordinary ones up to two, errors included |
| CsvLags.NextIsLagged | lib_pypy/_csv.py:224-249 | On a file of whole lines, next returns the records of that automaton and leaves the lines behind them, and no row where it has none |
| CsvLags.WrongMisreads | lib_pypy/_csv.py:406-416 | A field that has gone wrong stays wrong, whatever follows, up to the end of its record |
| CsvSingles.RoundTripExactSingle | lib_pypy/_csv.py:224-519 | With an escape character and without doublequote, any rows are read back from the lines of the file exactly if every field meets the condition Kept on its characters |
| CsvSingles.RowExact | lib_pypy/_csv.py:224-249 | A written row is the next record, whatever follows, if all its fields are kept; otherwise the next record is another one or there is none |
| CsvSingles.FieldKept | lib_pypy/_csv.py:447-475 | A field that is kept, as the writer writes it, is complete in the reader where its text ends |
| CsvSingles.FieldLost | lib_pypy/_csv.py:447-475 | After any other field the record has something else in its place, whatever follows |
| CsvSingles.EscapeKept | lib_pypy/_csv.py:323-341 | An escape character of the field escapes the one written before a quote, and that quote closes the field too early; if only quotes follow, the rest is read as it was meant |
| CsvSingles.OtherAfterClose | lib_pypy/_csv.py:253-284 | If anything else than quotes stands behind an early closing quote, the field is not read back |
| CsvSingles.BehindEscaped | lib_pypy/_csv.py:323-341 | A run of escape characters, of which every second one is lost, never leads back to the field |
| CsvSingles.PlainSpoilt | lib_pypy/_csv.py:266 | In an unquoted field the escape of a quote behind a lone character takes that character's place |
| CsvSingles.EscapedQuoteLost | lib_pypy/_csv.py:266 | The field ab"c is written as ab\"c and read back as another field, a\"c |
| CsvSingles.EscapeAndQuoteKept | lib_pypy/_csv.py:323-341 | The field \" is read back although it has the escape character |
| MarshalFormats.Marshaller.Dump | lib_pypy/_marshal.py:43-53 | A value is written as the format says if it has a form in it, and is a ValueError if not |
| MarshalFormats.Marshaller.DumpInt | lib_pypy/_marshal.py:98-106 | 32-bit integers take five bytes, others nine |
| MarshalFormats.Marshaller.DumpLong | lib_pypy/_marshal.py:108-121 | Long integers are written as a signed count and digits of 15 bits |
| MarshalFormats.Marshaller.ToDigits | lib_pypy/_marshal.py:113-117 | The loop that shifts by 15 bits gives the digits, the lowest first |
| MarshalFormats.Marshaller.DumpDict | lib_pypy/_marshal.py:175-181 | Keys and values alternate, and a NULL tag ends them |
| MarshalFormats.Marshaller.WLong | lib_pypy/_marshal.py:59-67 | Four little-endian bytes of the integer modulo 2^32 |
| MarshalFormats.Marshaller.DumpSequence | lib_pypy/_marshal.py:161-173 | Tag, count and items |
| MarshalObjects.FastUnmarshaller.LoadValue | lib_pypy/_marshal.py:493-503 | Tag and value, or the error, and the position in the buffer, as the reading function says |
| MarshalObjects.FastUnmarshaller.RShort | lib_pypy/_marshal.py:443-449 | Two bytes, signed |
| MarshalObjects.FastUnmarshaller.RLong | lib_pypy/_marshal.py:451-465 | Four bytes, signed by the top bit |
| MarshalObjects.FastUnmarshaller.RLong64 | lib_pypy/_marshal.py:467-482 | Eight bytes, signed by the top bit |
| MarshalObjects.FastUnmarshaller.LoadLong | lib_pypy/_marshal.py:537-548 | Digits of 15 bits summed in a loop, negative if the count is |
| MarshalObjects.FastUnmarshaller.LoadString | lib_pypy/_marshal.py:566-569 | Count and bytes; EOFError if they are cut short |
| MarshalObjects.FastUnmarshaller.LoadList | lib_pypy/_marshal.py:594-600 | As many items as the count says |
| MarshalObjects.FastUnmarshaller.LoadSet | lib_pypy/_marshal.py:633-645 | The items, equal ones once |
| MarshalObjects.FastUnmarshaller.LoadDict | lib_pypy/_marshal.py:602-611 | Pairs up to the NULL tag; a later equal key replaces the value |
| MarshalObjects.Unmarshaller.LoadValue | lib_pypy/_marshal.py:248-255 | The same for the stream reader over a string buffer |
| MarshalObjects.Unmarshaller.RShort | lib_pypy/_marshal.py:257-263 | Two bytes, signed |
| MarshalObjects.Unmarshaller.RLong | lib_pypy/_marshal.py:265-276 | Four bytes, signed by the top bit |
| MarshalObjects.Unmarshaller.RLong64 | lib_pypy/_marshal.py:278-291 | Eight bytes, signed by the top bit |
| MarshalObjects.Unmarshaller.LoadLong | lib_pypy/_marshal.py:321-332 | Digits of 15 bits summed in a loop |
| MarshalObjects.Unmarshaller.LoadString | lib_pypy/_marshal.py:350-353 | Count and bytes, as many as there are |
| MarshalObjects.Unmarshaller.LoadList | lib_pypy/_marshal.py:379-383 | As many items as the count says |
| MarshalObjects.Unmarshaller.LoadSet | lib_pypy/_marshal.py:416-420 | The items, equal ones once |
| MarshalObjects.Unmarshaller.LoadDict | lib_pypy/_marshal.py:385-394 | Pairs up to the NULL tag |
| MarshalObjects.StringBuffer.ReadBytes | lib_pypy/_marshal.py:232-238 | Up to n bytes, and the position always moves on by n |
| MarshalObjects.Loads | lib_pypy/_marshal.py:673-675 | loads is the fast reader at the start of the string |
| MarshalObjects.Dumps | lib_pypy/_marshal.py:665-671 | dumps gives the bytes of the format, or ValueError for what has none |
| MarshalReaders.Load | lib_pypy/_marshal.py:248-255 | Either reader moves on by at least the tag, and the fast one never beyond the buffer |
| MarshalRoundTrips.Long32RoundTrip | lib_pypy/_marshal.py:265-276 | A signed 32-bit integer comes back |
| MarshalRoundTrips.Long64RoundTrip | lib_pypy/_marshal.py:278-291 | A signed 64-bit integer comes back |
| MarshalRoundTrips.SumOfDigits | lib_pypy/_marshal.py:108-121 | The base 2^15 digits of any natural number are in range and sum up to it |
| MarshalRoundTrips.BigIntRoundTrip | lib_pypy/_marshal.py:321-332 | A long integer of any size and sign comes back, by either reader |
| MarshalRoundTrips.MarkerEnds | lib_pypy/_marshal.py:385-394 | The NULL tag ends a dictionary |
| MarshalRoundTrips.PairsRoundTrip | lib_pypy/_marshal.py:385-394 | No encoded key is taken for the NULL tag, so all pairs of a dictionary come back, in order |
| MarshalRoundTrips.RoundTrip | lib_pypy/_marshal.py:248-394 | Anywhere in any buffer, either reader reads the encoding of a supported value tree back, with integers numerically equal, and stops right behind it |
| MarshalRoundTrips.NormEqual | lib_pypy/_marshal.py:278-291 | What comes back, with long for 64-bit int, is equal as a key to what was written |
| MarshalRoundTrips.SupportedDumpable | lib_pypy/_marshal.py:43-53 | Every supported value can be written |
| MarshalRoundTrips.LoadsDumps | lib_pypy/_marshal.py:653-675 | Loading dumps(x) + rest gives x and consumes exactly the bytes of dumps(x), whatever the rest is |
| MarshalAgreements.ReadersAgree | lib_pypy/_marshal.py:240-645 | On any bytes at any position, well formed or not: the readers give the same value and position, and the fast one succeeds exactly if the stream one does without leaving the buffer |
| MarshalAgreements.TruncatedText | lib_pypy/_marshal.py:232-238 | A string cut short: the stream reader returns what is left and a position beyond the buffer, the fast one raises |
| MarshalPrefixes.LoadDecided | lib_pypy/_marshal.py:484-645 | On any bytes at any position: with more bytes behind them the fast reader gives the same value, position or error, unless it was EOFError |
| MarshalPrefixes.TruncatedDump | lib_pypy/_marshal.py:424-441 | Every proper prefix of a dump is an EOFError for loads, never a value and no other error |
| MarshalPrefixes.UnknownTag | lib_pypy/_marshal.py:493-503 | A byte that is no tag is a ValueError |
| MarshalPrefixes.SetOfAny | lib_pypy/_marshal.py:633-645 | The bytes of a set with any items: each of them once, or TypeError exactly if one is not hashable |
| MarshalPrefixes.DistinctKeys | lib_pypy/_marshal.py:633-645 | The items of a set that is read have the keys of those in the bytes, each key once |
| MarshalPrefixes.InsertedLast | lib_pypy/_marshal.py:602-611 | A key that comes again has the later value, and the other keys keep theirs |
| MarshalPrefixes.LittleEndian | lib_pypy/_marshal.py:55-70 | Two, four or eight bytes sum up, the first one the least significant, to the integer modulo 2^16, 2^32 or 2^64 |
| MarshalPrefixes.SignedBytes | lib_pypy/_marshal.py:443-482 | Read back, they are that sum modulo the same power, in the signed range |
| MarshalPrefixes.Tagged | lib_pypy/_marshal.py:13-34 | The first byte of a dump is the character of its type |
| Calendar.Constants | lib_pypy/datetime.py:80-94 | The three constants are what the module computes and asserts of them, and the month table is a running sum |
| Calendar.NextMonth | lib_pypy/datetime.py:56-67 | The days before a month and the days of that month are the days before the next one, in leap years too |
| Calendar.NextYear | lib_pypy/datetime.py:51-54 | Counting leap years by division agrees with adding year after year, for all years |
| Calendar.MonthRule | lib_pypy/datetime.py:34-67 | Month lengths alternate and start anew in August; the days before a month are a linear formula from March on |
| Calendar.KnownDates | lib-python/2.7/test/test_datetime.py:560-650 | The ordinal and the leap years that the tests fix |
| Calendar.OrdinalOrder | lib_pypy/datetime.py:69-78 | Ordinals are ordered as dates are, and no two dates share one, in any year, negative ones included |
| Calendar.OrdinalOnto | lib_pypy/datetime.py:69-78 | Every integer is the ordinal of exactly one valid date |
| Calendar.MonthEstimate | lib_pypy/datetime.py:146-150 | The estimate (n + 50) >> 5 is exact or one too large, for every day of either kind of year |
| Calendar.Cycles | lib_pypy/datetime.py:119-145 | The year put together from 400, 100, 4 and 1 year cycles starts where they say, and is leap exactly if the code's test on the cycles holds |
| Calendar.MonthAndDay | lib_pypy/datetime.py:146-156 | From the day of the year to a valid month and day, through the correction of the estimate |
| Calendar.Ord2Ymd | lib_pypy/datetime.py:96-156 | Inverts the ordinal for every integer: the date is valid and has that ordinal, and all assertions in the code hold |
| Calendar.ThereAndBack | lib_pypy/datetime.py:69-156 | _ymd2ord and then _ord2ymd give any valid date of any year back, and ValueError for what is not a date |
| Calendar.BackAndThere | lib_pypy/datetime.py:69-156 | _ord2ymd and then _ymd2ord give every integer back |
| Calendar.NextDayOrdinal | lib_pypy/datetime.py:388-393 | The day after a date has the next ordinal, across months and years |
| Calendar.PreviousDayOrdinal | lib_pypy/datetime.py:382-387 | The day before a date has the previous one |
| Calendar.IsoCalendar | lib_pypy/datetime.py:996-1021 | Week 1 to 53 and weekday 1 to 7 such that the Monday of week 1 plus whole weeks and days is the date, and the Thursday of that week is in the ISO year |
| Calendar.WeekOne | lib_pypy/datetime.py:1922-1931 | Week 1 of any year starts on a day that is 1 modulo 7, as day 1 of year 1 is a Monday, and its Thursday is one of the first seven days of the year |
| Calendar.IsoDateIff | lib_pypy/datetime.py:996-1021 | For all ordinals, by counting alone: the weekday is the ordinal modulo 7, the Thursday of the week lies in the ISO year, and the week is its number among the year's Thursdays; these three hold exactly of the ISO date |
| Calendar.LongYears | lib_pypy/datetime.py:1922-1931 | A year has 53 weeks exactly if it starts on a Thursday, or on a Wednesday and is a leap year |
| Calendar.Repeats | lib_pypy/datetime.py:996-1021 | 400 years later every date has the same week and weekday |
| Calendar.IsoWeek | lib_pypy/datetime.py:1003-1021 | Both corrections at the borders of the year lead to the year that the week belongs to |
| Calendar.MondaysApart | lib_pypy/datetime.py:1922-1931 | The first Mondays of two ISO years are 52 or 53 weeks apart |
| Calendar.IsoDateUnique | lib_pypy/datetime.py:996-1021 | Different days have different ISO dates, and different ISO dates are different days |
| Durations.Make | lib_pypy/datetime.py:446-558 | For integer arguments, the timedelta has exactly the total of all arguments in microseconds and is in normal form, or is an OverflowError |
| Durations.Normal | lib_pypy/datetime.py:446-558 | Every total has a normal form |
| Durations.CanonicalUnique | lib_pypy/datetime.py:446-558 | and only one |
| Durations.CompareTotals | lib_pypy/datetime.py:703-720 | Comparing days, seconds and microseconds in turn is comparing totals |
| Durations.Units | lib_pypy/datetime.py:500-520 | Hours, minutes and seconds, the longest duration and the day before |
| Durations.Add | lib_pypy/datetime.py:604-611 | Exact on totals |
| Durations.Sub | lib_pypy/datetime.py:615-622 | Exact on totals |
| Durations.Neg | lib_pypy/datetime.py:629-634 | Exact on totals |
| Durations.Abs | lib_pypy/datetime.py:639-643 | The sign of the days decides the sign of the total |
| Durations.Mul | lib_pypy/datetime.py:645-652 | Exact on totals, for every integer factor |
| Durations.Div | lib_pypy/datetime.py:656-661 | The total is divided and rounded down, for divisors of either sign; ZeroDivisionError for 0 |
| Durations.FloorDivBounds | lib_pypy/datetime.py:656-661 | The quotient is the floor, for divisors of either sign |
| Durations.MulDiv | lib_pypy/datetime.py:645-661 | (t * k) / k is t, for every k but 0 |
| Durations.AddSub | lib_pypy/datetime.py:604-622 | (t + u) - u is t |
| Durations.Representable | lib_pypy/datetime.py:446-558 | Exactly the totals between the two extreme timedeltas are no OverflowError |
| Datetimes.Tm.constructor | lib_pypy/datetime.py:345-400 | Any integers as fields are brought into range without changing the instant that they denote |
| Datetimes.NormalFieldsUnique | lib_pypy/datetime.py:341-400 | Fields in range are determined by the instant |
| Datetimes.Tm.RollMonths | lib_pypy/datetime.py:367-371 | Twelve months are a year, in either direction |
| Datetimes.Tm.RollDays | lib_pypy/datetime.py:377-396 | Days roll to the right date through the cheap branches for one day as through the ordinal, and a stored ordinal is that of the date |
| Datetimes.Tm.CarryOver | lib_pypy/datetime.py:348-359 | A carry and a remainder in range that make up the same amount, also when the test spares the division |
| Datetimes.Tm.ToOrdinal | lib_pypy/datetime.py:402-410 | The ordinal of the fields, stored or not |
| Datetimes.YearsAreDays | lib_pypy/datetime.py:273-283 | The years 1 to 9999 are exactly a range of ordinals |
| Datetimes.AddDelta | lib_pypy/datetime.py:1838-1855 | The result is the instant later by the total of the timedelta, in the same time zone, and OverflowError exactly if that instant is not in the years 1 to 9999 |
| Datetimes.Subtract | lib_pypy/datetime.py:1857-1879 | The difference of the instants, for datetimes of the same time zone |
| Datetimes.SubDelta | lib_pypy/datetime.py:1857-1862 | The instant earlier by the timedelta; it goes through -t, which can overflow |
| Datetimes.AddThenSubtract | lib_pypy/datetime.py:1838-1879 | (a + t) - a is t whenever a + t is in range |
| Datetimes.SubtractThenAdd | lib_pypy/datetime.py:1838-1879 | a + (b - a) is b, always |
| Datetimes.AddDays | lib_pypy/datetime.py:962-973 | A date plus a timedelta is the date that many whole days later, or OverflowError |
| Datetimes.SubDays | lib_pypy/datetime.py:975-978 | A date minus a duration is as many days earlier as the duration has, or OverflowError exactly out of range |
| Datetimes.SubtractDates | lib_pypy/datetime.py:979-982 | The difference of two dates is always a duration of whole days |
| Datetimes.AddThenSubDays | lib_pypy/datetime.py:961-978 | (d + t) - t is d whenever the sum exists |
| Datetimes.SubtractThenAddDays | lib_pypy/datetime.py:961-982 | e + (d - e) is d, always |
| Datetimes.SubOrAddNegated | lib_pypy/datetime.py:975-978 | d - t is d + (-t) exactly if t has no part of a day or both are out of range |
| Datetimes.ValueUnique | lib_pypy/datetime.py:1838-1855 | A datetime is determined by its instant and its time zone |
| Sha256Rounds.EightRounds | lib_pypy/_sha256.py:46-53 | Eight lines in which the registers change names instead of places are eight turns of the shift-register loop, whatever a round computes |
| Sha256Words.UnrolledRounds | lib_pypy/_sha256.py:46-109 | All 64 lines, with their constants written out, are 64 turns of the loop with the constants of section 4.2.2 of FIPS 180-4 |
| Sha256Words.RorIs | lib_pypy/_sha256.py:17 | ROR, by a shift of unbounded integers and a mask, is the rotation of section 3.2 for all amounts used |
| Sha256Words.ChIs | lib_pypy/_sha256.py:18 | Ch is the function of section 4.1.2 |
| Sha256Words.MajIs | lib_pypy/_sha256.py:19 | Maj is the function of section 4.1.2 |
| Sha256Words.SigmaIs | lib_pypy/_sha256.py:22-23 | Sigma0 and Sigma1 are the functions of section 4.1.2 |
| Sha256Words.GammaIs | lib_pypy/_sha256.py:24-25 | Gamma0 and Gamma1 are the functions of section 4.1.2 |
| Sha256Words.LateDIs | lib_pypy/_sha256.py:40-44 | Masking the full sum once at the end gives the sum modulo 2^32 that makes the new e |
| Sha256Words.LateHIs | lib_pypy/_sha256.py:40-44 | The same for the new a |
| Sha256Words.CodeRoundIs | lib_pypy/_sha256.py:39-44 | A round of the code is a turn of step 3 of section 6.2.2 |
| Sha256Words.AfterIsRounds | lib_pypy/_sha256.py:46-109 | By induction, so are any number of rounds |
| Sha256Words.Expand | lib_pypy/_sha256.py:28-35 | The two loops build the message schedule of section 6.2.2 |
| Sha256Words.AddDigest | lib_pypy/_sha256.py:111-114 | The last loop is step 4 of section 6.2.2 |
| Sha256Words.Transformed | lib_pypy/_sha256.py:27-114 | For every hash value and block, the new hash value is that of FIPS 180-4 |
| Fips180.FewestZeros | lib_pypy/_sha256.py:187-197 | The number of padding zeros is the smallest that section 5.1.1 allows |
| Fips180.PaddedText | lib_pypy/_sha256.py:184-206 | A padded message is the message, the byte 0x80, zeros and the length field, and the shortest such text in whole blocks |
| Sha256Objects.ShaInfo.constructor | lib_pypy/_sha256.py:116-123 | A new object stands for no bytes |
| Sha256Objects.ShaInfo.Count | lib_pypy/_sha256.py:143-150 | The split counter holds eight times the number of bytes, through every carry |
| Sha256Objects.ShaInfo.TopUp | lib_pypy/_sha256.py:152-169 | A block begun before is filled, and hashed when it is full |
| Sha256Objects.ShaInfo.WholeBlocks | lib_pypy/_sha256.py:171-176 | Every whole block of the buffer is hashed from a new list |
| Sha256Objects.ShaInfo.Tail | lib_pypy/_sha256.py:179-182 | The rest becomes the live part of the buffer |
| Sha256Objects.ShaInfo.Update | lib_pypy/_sha256.py:142-182 | An object that stands for the bytes fed so far stands for them and the new ones: hash value, live bytes and counter are those of all bytes together |
| Sha256Objects.SameBytesSameState | lib_pypy/_sha256.py:142-182 | Two objects that were fed the same bytes, in whatever pieces, agree in everything that a later call can see |
| Sha256Objects.ShaInfo.Finish | lib_pypy/_sha256.py:184-208 | The last one or two blocks are exactly the padding of section 5.1.1 with the bit count |
| Sha256Objects.CodeFieldIs | lib_pypy/_sha256.py:199-206 | The eight bytes made of the two halves of the counter are the length field, for lengths under 2^64 bits and modulo 2^64 beyond |
| Sha256Objects.ShaInfo.Final | lib_pypy/_sha256.py:184-213 | The digest is that of the padded message, and of the list that it finds just one cell changes: the first one behind its own live bytes gets 0x80 |
| Sha256Objects.Padded | lib_pypy/_sha256.py:190-197 | Hashing the padded message is hashing the blocks already taken and then the one or two that the code makes |
| Sha256Objects.Sha.Sha256 | lib_pypy/_sha256.py:219-222 | A sha256 object, with or without first bytes |
| Sha256Objects.Sha.Sha224 | lib_pypy/_sha256.py:241-244 | The same for sha224, which differs in start and size |
| Sha256Objects.Sha.Update | lib_pypy/_sha256.py:224-225 | The same for the object that users see |
| Sha256Objects.Sha.Digest | lib_pypy/_sha256.py:227-228 | The digest of all bytes fed, cut to size; the object stands for the same bytes afterwards, although the cell behind its live bytes, in a list that copies may share, is 0x80 then |
| Sha256Known.KnownDigest | lib_pypy/_sha256.py:251-255 | The standard's functions, constants and padding as written here give the digest that the module's test expects, through all 64 rounds |
| Sha256Known.Sha224Start | lib_pypy/_sha256.py:125-132 | The start of SHA-224 is made of square roots of primes |
| Sha256Objects.SharedUpdate | lib_pypy/_sha256.py:142-182 | Of two objects that share their list, an update of one leaves the other standing for its bytes exactly if what it writes into the list, the top-up and then the rest at the start unless whole blocks come between, agrees with what was live in the other |
| Sha256Objects.NeverFedAgain | lib_pypy/_sha256.py:152-182 | For a copy with as many live bytes as its original: exactly if the update does not fill the block, or fills a second one too, or puts the same bytes at the start again |
| Sha256Objects.SharedCopy | lib_pypy/_sha256.py:233-236 | A copy and its original fed one byte each: the copy holds the byte that the original was fed, and is intact exactly if it is the same one |
| Sha256Objects.SharedDigest | lib_pypy/_sha256.py:184-188 | A digest of one of two objects that share their list leaves the other one standing for its bytes exactly if it has no live byte in the cell behind the live bytes of the first, or has 0x80 there |
| Sha256Objects.DigestedOriginal | lib_pypy/_sha256.py:227-236 | A copy that was fed one byte more than its original holds 0x80 in its place after a digest of the original |
| TaskletInvariants.AppendedBehindHead | lib_pypy/stackless.py:129-132 | _scheduler_append(t, False) puts the tasklet right behind the running one |
| TaskletInvariants.CommunicatedCore | lib_pypy/stackless.py:257-304 | A call on a channel, met or not, keeps queues, balances, blocked flags and values in transit consistent |
| TaskletInvariants.ScheduledCore | lib_pypy/stackless.py:512-518 | Rotating the run queue keeps them too |
| TaskletInvariants.SetUpCore | lib_pypy/stackless.py:404-428 | and so does a new tasklet |
| TaskletRuns.InitInv | lib_pypy/stackless.py:529-540 | The state that _init leaves has the invariant |
| TaskletRuns.StepKeeps | lib_pypy/stackless.py:257-312 | Every step keeps the invariant, in particular the running tasklet at the head of the queue and never blocked; what a call returns is right; and RuntimeError ends the run exactly if the only runnable tasklet makes a call that finds nobody |
| TaskletRuns.Run | lib_pypy/stackless.py:257-312 | So every run does, and every call made in it returned once at most or is still open |
| TaskletRuns.ReceivesInOrder | lib_pypy/stackless.py:268-312 | On every channel and in every run the k-th receive returns the k-th value sent, once at most, or its tasklet is still in it |
| TaskletRuns.QueuesAccountForTasklets | lib_pypy/stackless.py:280-304 | In every run the length of a channel's queue is the absolute balance; a queued tasklet has the sign of the balance as its blocked flag; each tasklet is runnable or in exactly one queue |
| TaskletRuns.RoundRobin | lib_pypy/stackless.py:501-527 | n calls of schedule run the n-th tasklet of the queue, and after as many as it is long everything is as before |
| TaskletRuns.SendRunsReceiver | lib_pypy/stackless.py:281-307 | With the default preference, a send to a waiting receiver makes it head and running, it returns with the value, the sender is last and the others keep their order |
| TaskletRuns.OrderAfterMeeting | lib_pypy/stackless.py:281-307 | For each preference and with schedule_all: whether the caller gives way, who runs next and where the two tasklets go, with the rest in unchanged order |
| TaskletRuns.ReceiveKeepsRunning | lib_pypy/stackless.py:281-312 | With the default preference, a receive from a waiting sender returns the oldest value at once, and the sender is appended |
| TaskletRuns.FindsNobody | lib_pypy/stackless.py:297-307 | A send or receive that finds nobody, with another tasklet runnable: the caller leaves the run queue and is the last in the queue of the channel, the tasklet right behind it runs, and exactly that one returns, from the call that it was in; nothing else changes |
| TaskletRuns.FindsPartner | lib_pypy/stackless.py:281-312 | A send or receive that finds a partner, for every preference and schedule_all: the run queue afterwards, who runs, the exchanged values, the channel, and which call returns with what |
| TaskletRuns.GivesWayOnly | lib_pypy/stackless.py:501-527 | schedule on its own: the caller goes to the end, the next tasklet runs and returns from its call, nothing else changes |
| TaskletRuns.NewRunsLast | lib_pypy/stackless.py:404-428 | A new tasklet is the last one of the run queue, so that all runnable ones run before it, in their order |
| TaskletRuns.NewChannelRunsReceiver | lib_pypy/stackless.py:227-312 | On a new channel a receiver waits, and the next send runs it at once with the value; the sender is last |
| TaskletErrors.ErrorLeaves | lib_pypy/stackless.py:298-307 | Where RuntimeError is raised, queues, balances and values are consistent, every tasklet is blocked, and the one that gets the error is the last in the queue of its channel |
| TaskletErrors.NextCall | lib_pypy/stackless.py:267-312 | The next call of that tasklet raises again exactly if it finds nobody; otherwise what returns next is right exactly if it does not meet itself or the value in transit is None |
| TaskletErrors.MeetsItself | lib_pypy/stackless.py:281-312 | A call that meets its own earlier one returns its own argument, and the invariant of a run holds again |
| TaskletErrors.MeetsOther | lib_pypy/stackless.py:281-312 | A call that meets another tasklet: the one that goes on returns with the right value, and the caller stays blocked in the queue of the call that raised |
| Stackless.Scheduler.SchedulerAppend | lib_pypy/stackless.py:126-132 | The queue as the specification has it, by rotations |
| Stackless.Scheduler.SchedulerRemove | lib_pypy/stackless.py:120-124 | Removes the first occurrence, or nothing |
| Stackless.Scheduler.SchedulerSwitch | lib_pypy/stackless.py:141-151 | The next tasklet runs and is the last task; the assertion that it is not blocked holds |
| Stackless.Scheduler.Schedule | lib_pypy/stackless.py:501-527 | The step of the specification, or RuntimeError with nothing changed if the queue is empty |
| Stackless.Scheduler.Meet | lib_pypy/stackless.py:281-294 | The exchange of values, the wake-up and the place in the queue by preference |
| Stackless.Scheduler.Wait | lib_pypy/stackless.py:300-304 | The running tasklet joins the channel's queue and leaves the run queue |
| Stackless.Scheduler.Communicate | lib_pypy/stackless.py:267-304 | Everything before schedule, and whether it is called |
| Stackless.Scheduler.ChannelAction | lib_pypy/stackless.py:257-312 | The state after a send or receive is that of the specification's step, and RuntimeError is raised where that ends the run |
| Stackless.Scheduler.Setup | lib_pypy/stackless.py:404-428 | The new tasklet is appended to the queue, not blocked |
| SetupLog.ChainIsChain | _pytest/main.py:225-233 | A chain goes from a root down, each node the parent of the next |
| SetupStates.ListChain | _pytest/main.py:225-233 | The loop up the parents and the reversal give the chain |
| SetupLog.ChainDistinct | _pytest/main.py:195-203 | No node occurs twice in a chain, with the equality that Node defines |
| SetupLog.CommonIff | _pytest/runner.py:318-321 | The common prefix is the longest one |
| SetupLog.FinalizersAccounted | _pytest/runner.py:288-302 | In every log that keeps to the discipline, a finalizer has run as often as it was registered, but for those still attached |
| SetupLog.EachFinalizerRanOnce | _pytest/runner.py:310-314 | If nothing is left set up, each ran exactly once for each registration |
| SetupStates.SetupState.AddFinalizer | _pytest/runner.py:288-295 | The finalizer is the last one of its node, and the log has its registration and nothing else new |
| SetupStates.SetupState.CallFinalizers | _pytest/runner.py:299-302 | All finalizers of the node on top run, the last registered first, each once, and none is left |
| SetupStates.SetupState.TeardownWithFinalization | _pytest/runner.py:304-309 | Finalizers first, then the teardown; the assertion that no finalizer lost its node holds |
| SetupStates.SetupState.PopAndTeardown | _pytest/runner.py:296-298 | Only the node on top is torn down, after its finalizers, the last registered first |
| SetupStates.SetupState.TeardownTowards | _pytest/runner.py:318-321 | What stays is the longest prefix of the stack that is needed; nothing is set up |
| SetupStates.SetupState.TeardownExact | _pytest/runner.py:315-317 | The same for the chain of the next item |
| SetupStates.SetupState.TeardownAll | _pytest/runner.py:310-314 | In the end nothing is set up and no finalizer is left, as the last assertion says |
| SetupStates.SetupState.FindFailure | _pytest/runner.py:329-331 | The failure of the first node that has one |
| SetupStates.FirstFailureIff | _pytest/runner.py:329-331 | There is one exactly if some node has a record, and it is the record of the first such node |
| SetupStates.SetupState.SetUpNode | _pytest/runner.py:332-338 | The log gets the start, every registration that the script of user code brings and, exactly if it raises, the failure; the node is on the stack even then |
| SetupStates.SetupState.SetUpNodes | _pytest/runner.py:332-338 | The rest of the chain is set up in order, up to the first setup that raises, whose exception is returned |
| SetupStates.SetupState.Prepare | _pytest/runner.py:323-338 | The stack is always a prefix of the item's chain: shared nodes are not set up again, the others are, parents first; a recorded failure of a shared node is raised again and nothing is set up, otherwise the first exception of the setups needed is raised; the log keeps to the discipline, in which nothing is set up or called above a failed node |
| SetupStates.SetupState.CallItem | _pytest/runner.py:76-77 | The item is called, on top of its whole chain with no failed setup in it, and what the call registers is in the log |
| SetupStates.SetupState.RunTestProtocol | _pytest/runner.py:61-68 | The item is called exactly if its setup passed, and it passes exactly if no node that stays has a failure recorded and no setup of the others raises; what is set up is a part of the item's chain behind all that is still stacked; every registration of a setup or call that ran is in the log; after the teardown the stack is what the next item's chain shares with what was stacked |
| SetupStates.RunTestLoop | _pytest/main.py:106-115 | For any items and whatever fails: in the end the stack is empty and the log is a whole word of the discipline; the calls in the log are those of the items whose setup passed, in order, and its registrations are all that the setups and calls brought; what is set up for an item is a part of its chain behind all that is still stacked from the item before; and if nothing raises, what consecutive items share is set up once and the calls are exactly the items |
| SetupStates.PrepareInPeace | _pytest/runner.py:329-337 | While no setup raises, prepare passes exactly if no node that stays set up raised in any setup before |
| SetupStates.StaleFailure | _pytest/runner.py:329-337 | A node that raised once and was set up again without raising still fails its next item |
| Msgstruct.BuildTypeCodes | dotviewer/msgstruct.py:29-39 | The loop builds the type string |
| Msgstruct.BuildMessage | dotviewer/msgstruct.py:27-45 | The message as the format says, struct.error for an integer beyond 64 bits, and the nested form when the type string reaches 256 characters |
| Msgstruct.WrappedShort | dotviewer/msgstruct.py:43-45 | The outer message of a nested one is never nested itself, so the call of itself is the only one |
| MsgstructRoundTrip.ParseTypeCodes | dotviewer/msgstruct.py:50-54 | The type string is parsed back to the codes chosen, decimal lengths included |
| MsgstructRoundTrip.FieldRead | dotviewer/msgstruct.py:31-38 | Every value comes back from its field, negative integers included |
| MsgstructRoundTrip.UnpackPack | dotviewer/msgstruct.py:52-54 | Size and values of packed fields |
| MsgstructRoundTrip.NetworkOrder | dotviewer/msgstruct.py:41-42 | Integers are sent with the most significant byte first |
| MsgstructRoundTrip.SmallestCode | dotviewer/msgstruct.py:33-38 | No code that can hold an integer takes fewer bytes than the one chosen |
| MsgstructRoundTrip.KnownMessage | dotviewer/msgstruct.py:27-42 | The bytes of a message, with its type codes in letters |
| MsgstructRoundTrip.RoundTrip | dotviewer/msgstruct.py:47-60 | Decoding message(tp, values) + rest gives tp, values and rest back exactly if tp is not NUL or the type string has 256 characters or more |
| MsgstructRoundTrip.NulIsOpened | dotviewer/msgstruct.py:55-56 | A plain message of type NUL never comes back as itself |
| MsgstructRoundTrip.PrefixWaits | dotviewer/msgstruct.py:48-60 | No proper prefix of a message decodes to anything |
| MsgstructRoundTrip.DecodeMonotone | dotviewer/msgstruct.py:47-60 | On any bytes, with formats that message does not write counted as malformed, what follows the bytes that decide changes neither a message nor an error |
| MsgstructIO.IO.Recv | dotviewer/msgstruct.py:94-99 | The next piece, or the end of the stream |
| MsgstructIO.IO.Recvmsg | dotviewer/msgstruct.py:74-82 | The outcome is that of decoding the whole stream at once, so it does not depend on the pieces, and what follows the message stays for the next call |
| MsgstructIO.ReceiveAll | dotviewer/msgstruct.py:74-82 | Any messages but plain ones of type NUL, sent over a stream, arrive in order and complete, whatever the pieces, and then the stream ends |

## Left out

- Deque `repr`, hashing, pickling, copying and comparison (`lib_pypy/_collections.py:198-210`, `lib_pypy/_collections.py:312-360`), threads, `defaultdict`, and the iterator's check for mutation: easy members, or outside this model.
- Deques.Deque.ToList: without the iterator's check for mutation, since nothing else runs during its loop here.
- Deques.Deque.ToReversedList: the same.
- The assertion of `reverse` compares two lists in Python: the cells by the `==` of the elements, which is equality here, then the left links, which differ at the latest where the chain ends.
- CSV dialect registration and attribute conversion, QUOTE_NONNUMERIC and its floats: conversions outside the parser.
- CsvRoundTrips.RoundTripUnescaped: for the dialects without escapechar, quoting MINIMAL or ALL, line terminator CR LF, no skipped initial space, and delimiter and quote character different from each other and from CR and LF.
- CsvRoundTrips.RoundTrip: for those of them with doublequote; an escapechar is the subject of `CsvEscapes.RoundTripExact`.
- CsvEscapes.RoundTripExact: for the same dialects with an escapechar; those without doublequote are the subject of `CsvSingles.RoundTripExactSingle`, and of QUOTE_NONE there is what it writes, in `CsvQuotings.PlainEscapes`, but not what of it is read back.
- CsvSingles.RoundTripExactSingle: for the same dialects with an escapechar and without doublequote.
- CsvLines.NextReads: for lines without the escape character; with it, `CsvLags.NextIsLagged` says what is read, and `CsvSplits` has the escaped start of a field and the escaped end of a line.
- CsvSplits.NextIsSplit: spaces are skipped only where the delimiter is none; where it is one, `CsvLines.NextReads` says what is read.
- CsvScans.BatchExact: for lines that the automaton parses a character at a time without an error; what the batches give on the others is in `CsvLags.BatchIsLagged`.
- CsvReaders.Reader.ParseProcessChar: without the numeric fields of QUOTE_NONNUMERIC.
- CsvReaders.Reader.ParseSaveField: without the conversion of a numeric field to a float.
- CsvWriters.Writer.WriteRow: for text and None, without QUOTE_NONNUMERIC and the text of other values.
- Marshal floats, complex numbers, unicode, code objects, interned and back-referenced strings, and negative lengths: the readers of this model report their tags as not modelled.
- MarshalFormats.Marshaller.Dump: without the values just named.
- MarshalObjects.FastUnmarshaller.LoadValue: reports their tags as not modelled.
- MarshalObjects.Unmarshaller.LoadValue: reports their tags as not modelled.
- MarshalObjects.FastUnmarshaller.LoadString: reports a negative length as not modelled.
- MarshalObjects.Unmarshaller.LoadString: reports a negative length as not modelled.
- MarshalObjects.StringBuffer.ReadBytes: for counts that are not negative, which are all that the readers of this model ask for.
- MarshalRoundTrips.RoundTrip: a 64-bit integer comes back as a long, so the value read is equal to the one written but for that type.
- Sets and dictionaries of marshal are sequences in the order of iteration, without equal elements or keys.
- `strftime`, `strptime`, time zone offsets and their callbacks, `fromtimestamp`, and the float arguments of `timedelta`: the platform, user code and floating point.
- Datetimes.Subtract: for datetimes of the same time zone; the branch that asks two time zones for their offsets is not part of this model.
- SHA-512 (`lib_pypy/_sha512.py`): the same structure with other sizes and constants; hexadecimal output.
- Sha256Objects.Sha.Digest: for messages of 2^64 bits and more, to which FIPS 180-4 gives no digest, the length field is the length modulo 2^64.
- Independence of hash objects made by `copy()`: it does not hold; `Sha256Objects.SharedUpdate` and `Sha256Objects.SharedDigest` say when the two calls that write into a shared list leave the other object intact.
- Stackless `kill`, the end of a tasklet, `run`, `insert`, `remove` and callbacks: they rest on `_continuation`, which is not part of this model, or bypass the queues.
- TaskletRuns.Run: ends where `schedule` raises; of a tasklet that catches the error, `TaskletErrors.NextCall` covers the next call, and what other calls return after it has met another tasklet is left out.
- Stackless.Scheduler.Schedule: one turn of the loop; the turn after the switch back ends it, because whoever switches back has set `_last_task` to the tasklet, which the invariant says.
- Stackless.Scheduler.ChannelAction: gives the state and whether RuntimeError is raised; what the calls return is stated of the steps, in `TaskletRuns.StepKeeps`.
- Stackless.Scheduler.Setup: the effect on the queue; binding the function and the first switch to it are left out with `_continuation`.
- Tasklets and channels are numbers and their fields entries of maps, so that no statement about aliasing of Python objects is made.
- Teardowns and finalizers that raise or register finalizers, and finalizers for nodes that are not on the stack; two nodes that are equal but distinct objects, which share `_prepare_exc` here.
- SetupStates.SetupState.AddFinalizer: for None and for nodes on the stack, as the assertion that the source has commented out says.
- SetupStates.RunTestLoop: without `shouldstop`, which ends the loop early.
- What user code does, in setups and tests, is a script with an entry for each call; the contracts say which entries are used and what becomes of them.
- MsgstructRoundTrip.DecodeMonotone: formats that `struct` accepts and `message` never writes, such as `2B`, count as malformed.
- MsgstructIO.IO.Recvmsg: the same.
- Formats of the module `struct` other than those `message` writes: `decodemessage` reports them as malformed here. Sockets and files are a list of the pieces that reading gives.
- Msgstruct.BuildMessage: for strings of less than 2^63 bytes, which is all that a Python string can have; the type is one character.
- Graph layout, drawing, servers, collection, reporting, configuration and all wrappers of foreign functions: not in scope of these models.
