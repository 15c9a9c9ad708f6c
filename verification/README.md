# SynchDB, modelled and verified in Dafny

SynchDB is a PostgreSQL extension that receives row and schema changes from other
databases, through the Debezium engine or from OpenLog Replicator (OLR), converts them
and applies them to PostgreSQL. This project models the algorithmic parts of that worker
and proves what they guarantee, for all inputs and over whole runs. Verify everything with
`dafny verify dfyconfig.toml`.

| module | what it models |
|---|---|
| `Positional`, `DecimalDecode`, `ScaledNumeric`, `FastDecode`, `BitStrings` | decoding of numbers and bit strings, in place on byte buffers |
| `OlrFrames`, `OlrBuffer`, `OlrWorker` | the OLR wire format, the accumulating read buffer, commit before confirm |
| `TokenQueue`, `UnicodeEscapes` | the Oracle parser's lookahead filter over a growable pushback buffer, and U& literals |
| `NameResolution`, `CaseRestore` | from remote names to PostgreSQL names on the DDL, DML and OLR paths |
| `SchemaDiff`, `AttributeMap` | working out ADD, DROP or ALTER from a column list, predicted attribute numbers, `synchdb_attribute` |
| `DataCache` | the per-table metadata cache of the DML path |
| `JsonAutomaton` | the token automaton over row images |
| `Lifecycle`, `Registry` | request slot, connector states, snapshot flags; the connector slots |
| `BatchDecoder`, `SwapTokens` | Debezium batches; transform expressions |
| `Wrappers` | `Option` |

Where the original updates buffers, arrays or fields in place, so does the model: byte and
character buffers are arrays, the frame buffer, the pushback buffer, the connector, the
slots and the cache are classes. Each method is tied to a function of its inputs or of the
old state, and what the program promises is proved about those functions.

Several natural claims do not hold of the code as written. For each there is a lemma that
says exactly when the code does meet the claim, most of them with a concrete input that
shows the failure:

- the numeral of a scaled number is exact up to 127 digits and for non-negative scales;
- the forced SCN flush at exit can record the position of an aborted batch;
- WITH LOCAL and UESCAPE are given the wrong third token when a DECLARE scan has pushed back
  more than two tokens;
- DDL and DML disagree on unmapped names with empty or dotted parts, and a primary-key
  clause normalises a rule's target that the column list takes literally;
- Oracle identifiers of 64 or more characters, and primary-key lists of mixed case classes,
  are not restored;
- column names of 64 or more characters, which PostgreSQL cuts, are not recognised again: they
  spoil predicted attribute numbers, are dropped with the columns that go, and reach a cached
  table of the same first 63 characters;
- live columns whose names contain `pg.dropped` are taken for dropped ones;
- a remote rename is never followed, and an add combined with a drop takes two events;
- a column respelled in another letter case keeps its old text in `synchdb_attribute` when it
  belongs to the primary key or the event adds or drops columns;
- `CREATE TABLE IF NOT EXISTS` on an existing table can overwrite its attribute map;
- nested JSON containers can leak inner members, since `pause` is a flag and not a depth;
- clearing the initial-snapshot flag also clears the no-CDC flag, because the flag macros
  have no parentheses, so an OLR connector in mode `initial_only` goes on to capture changes
  after its snapshot;
- an event behind the last snapshot event of a batch hides the end of the snapshot;
- a template expansion of 255 characters is complete only when it ends in a template
  character.

The comment above `derive_value_from_byte` calls it safe below 7 bytes; the code is right
for 7 bytes too, and that is what `FastDecode.DeriveValue` states.

## Model

| member | source | states |
|---|---|---|
| `DecimalDecode.DeriveDecimalString` | src/backend/converter/format_converter.c:499-598 | for every byte string of any length the result is the canonical decimal numeral of its big-endian two's-complement value, and has at most three digits per byte |
| `DecimalDecode.CanonicalIsUnique` | src/backend/converter/format_converter.c:493-498 | a canonical numeral is determined by its value, so the decoder's result is the only correct one |
| `DecimalDecode.TakeMagnitude` | src/backend/converter/format_converter.c:513-530 | the copy holds the absolute value of the two's-complement number, also for the most negative one |
| `DecimalDecode.Complement` | src/backend/converter/format_converter.c:520-521 | every byte is complemented in place |
| `DecimalDecode.ComplementedValue` | src/backend/converter/format_converter.c:520-521 | a byte string and its complement add up to 256^n - 1 |
| `DecimalDecode.Increment` | src/backend/converter/format_converter.c:523-529 | the in-place carry loop yields the incremented byte string |
| `DecimalDecode.IncrementedValue` | src/backend/converter/format_converter.c:523-529 | incrementing adds exactly one whenever the number is not all ones |
| `DecimalDecode.StripZeros` | src/backend/converter/format_converter.c:532-545 | dropping leading zero bytes keeps the value, and nothing is left exactly when the value is zero |
| `DecimalDecode.AllZero` | src/backend/converter/format_converter.c:563-567 | the loop's stop test is true exactly when the value in the buffer is zero |
| `DecimalDecode.DivideByTen` | src/backend/converter/format_converter.c:569-574 | byte-wise long division: old value = 10 * new value + remainder, remainder below ten |
| `DecimalDecode.GenerateDigits` | src/backend/converter/format_converter.c:552-579 | repeated division ends, stores the decimal digits least significant first, without leading zero, and never writes beyond three digits per byte |
| `DecimalDecode.DigitCountBound` | src/backend/converter/format_converter.c:547-553 | a value below 256^n that still has 10^k in it leaves k below 3n: the digit buffer is large enough |
| `DecimalDecode.Emit` | src/backend/converter/format_converter.c:581-592 | sign and reversed digits form the canonical numeral of the signed value |
| `ScaledNumeric.NumericWithScale` | src/backend/converter/format_converter.c:1930-2021 | the numeral always has max(scale, 0) fractional digits and denotes value / 10^scale if and only if the value has at most 127 digits and the scale is not negative (or the value is zero) |
| `ScaledNumeric.PlacePoint` | src/backend/converter/format_converter.c:1959-2020 | all four layouts read back as the signed digits with exactly that many fractional digits |
| `ScaledNumeric.Truncation` | src/backend/converter/format_converter.c:1935-1955 | cutting canonical digits at the buffer size keeps the value if and only if they fit |
| `ScaledNumeric.NegativeScaleIsLost` | src/backend/converter/format_converter.c:2011-2019 | 5 with scale -1 does not come out as 50 |
| `ScaledNumeric.LongNumberIsCut` | src/backend/converter/format_converter.c:1935-1955 | 2^424, a number of 128 digits, does not come out as itself |
| `FastDecode.DeriveValue` | src/backend/converter/format_converter.c:470-491 | for 1 to 7 bytes the 64-bit decoder returns the two's-complement value, the same integer as the arbitrary-length decoder's numeral |
| `FastDecode.AppendByte` | src/backend/converter/format_converter.c:477-480 | shifting and or-ing in a byte appends a base-256 digit, and the shift never reaches the sign bit |
| `FastDecode.SignExtends` | src/backend/converter/format_converter.c:486-489 | or-ing in the high ones subtracts 256^n modulo 2^64 |
| `FastDecode.OrDisjoint` | src/backend/converter/format_converter.c:479 | bitwise or of disjoint bit ranges is addition |
| `BitStrings.BitString` | src/backend/converter/format_converter.c:2033-2081 | the unquoted bit string has the little-endian value of the bytes; it is minimal without padding and exactly typemod characters long with it |
| `BitStrings.MinimalIsUnique` | src/backend/converter/format_converter.c:2067-2078 | a minimal bit string is determined by its value |
| `BitStrings.ReverseByteArray` | src/backend/converter/format_converter.c:606-619 | the array is reversed in place |
| `BitStrings.LittleEndianIsReversed` | src/backend/converter/format_converter.c:2076 | the little-endian value of bytes is the big-endian value of the reversed bytes |
| `BitStrings.ByteToBinary` | src/backend/converter/format_converter.c:654-662 | the eight characters are the bits of the byte, high bit first |
| `BitStrings.BinaryOfValue` | src/backend/converter/format_converter.c:654-662 | those eight characters denote the byte's value |
| `BitStrings.TrimLeadingZeros` | src/backend/converter/format_converter.c:626-647 | in place: the string becomes minimal and keeps its value, all zeros become 0 |
| `BitStrings.RenderByte` | src/backend/converter/format_converter.c:676-680 | appending one byte's bits multiplies the value by 256 and adds the byte, inside the buffer |
| `OlrWorker.ReceiveAll` | src/backend/olr/olr_client.c:128-236 | however a stream of frames is split into reads, the payloads handed over are the first frames sent, in order and once each; unless an event raises or a commit fails they are exactly the frames received in full, and the buffer keeps exactly the rest |
| `OlrFrames.HeaderBytes` | src/backend/olr/olr_client.c:159 | a length goes over the wire as four bytes, low byte first, for every length below 2^31 |
| `OlrFrames.HeaderIsTwosComplement` | src/backend/olr/olr_client.c:159 | the four bytes are read as the two's-complement number whose high byte comes last |
| `OlrFrames.ExactlyTheCompleteFrames` | src/backend/olr/olr_client.c:151-173 | a delivered prefix plus a tail without a whole frame can only be the maximal list of complete frames |
| `OlrFrames.DeliveredWereSent` | src/backend/olr/olr_client.c:151-208 | whatever has been cut out of a stream of frames are its first frames |
| `OlrFrames.FramesAreSound` | src/backend/olr/olr_client.c:151-176 | no cut of a stream of frames ever shows the loop a negative length |
| `OlrFrames.TakeFrame` | src/backend/olr/olr_client.c:159-187 | the bytes of a whole frame are the encoding of its payload |
| `OlrBuffer.FrameBuffer.Next` | src/backend/olr/olr_client.c:151-207 | a frame is cut out if and only if it is complete; received bytes = encoded delivered payloads + unread bytes is kept; islast if and only if fewer than four bytes follow |
| `OlrBuffer.FrameBuffer.Append` | src/backend/olr/olr_client.c:143-144 | reading appends to the buffer and to the received stream |
| `OlrBuffer.FrameBuffer.Compact` | src/backend/olr/olr_client.c:215-229 | only the unconsumed bytes stay and the offset is back at zero |
| `OlrBuffer.FrameBuffer.Reset` | src/backend/olr/olr_client.c:38-50 | a new connection starts with an empty buffer at offset zero |
| `OlrBuffer.CutFrame` | src/backend/olr/olr_client.c:176-206 | moving the offset over a frame moves its payload to the delivered ones and loses no byte |
| `OlrWorker.Worker.GetChange` | src/backend/olr/olr_client.c:128-236 | appends the read, delivers the complete frames, commits and keeps the tail; it fails if and only if an event raises or the commit fails, and the history then ends in the handled events and their abort; without a connection or data nothing changes |
| `OlrWorker.Worker.Batch` | src/backend/olr/olr_client.c:148-229 | one transaction per read: handled events in order, then the commit and the compacted buffer, or the abort |
| `OlrWorker.Worker.FrameLoop` | src/backend/olr/olr_client.c:151-208 | the loop stops only when no whole frame is left or the handler raised |
| `OlrWorker.Worker.Turn` | src/backend/olr/olr_client.c:151-208 | one frame: payload, flags, recorded position and confirm request |
| `OlrWorker.Worker.EndBatch` | src/backend/olr/olr_client.c:210-229 | commit and compact, or abort with the buffer untouched |
| `OlrWorker.FlagsMean` | src/backend/olr/olr_client.c:175-178 | isfirst marks exactly the first event of a call, islast only ever the last one |
| `OlrWorker.Worker.Connect` | src/backend/olr/olr_client.c:38-50 | after any history of calls a reconnect parses from its first byte |
| `OlrWorker.Worker.HandleEvent` | src/backend/converter/olr_event_handler.c:2342-2343 | a handled event records its position as the handler does, also when it raises after recording, and asks for a confirm exactly when it returns from the recording step |
| `OlrWorker.Worker.SetScns` | src/backend/olr/olr_client.c:294-300 | positive values replace, zeros keep |
| `OlrWorker.Worker.ConfirmScn` | src/backend/olr/olr_client.c:249-292 | a confirm carries the current position and is sent only with a commit SCN and a connection |
| `OlrWorker.Worker.WriteScnState` | src/backend/olr/olr_client.c:320-358 | a flush writes the current position, when forced or due |
| `OlrWorker.Worker.CaptureIteration` | src/backend/synchdb/synchdb.c:2562-2585 | the whole history of a turn: the handled events, the commit or the abort, and then, exactly when the batch was committed and some event of it was recorded, the confirm (with a commit SCN and a connection) and the flush (when due), with the recorded position |
| `OlrWorker.RunWorker` | src/backend/synchdb/synchdb.c:2545-2605 | a whole life of the client, over any sequence of connections cut anywhere, refused connections, offset updates and snapshots, with outcomes, commit failures and flush times of their own in every turn: at every confirm and every unforced flush everything done so far is committed and the position is the last one set; every commit of a batch with a recorded event, a connection and a commit SCN is followed at once by the confirm of its position, every confirm follows such a commit, and the history ends in the forced flush |
| `OlrWorker.RunSession` | src/backend/synchdb/synchdb.c:2545-2605 | each connection, offset update or snapshot keeps the history safe |
| `OlrWorker.Worker.SetOffset` | src/backend/synchdb/synchdb.c:3590-3628 | an offset update sets the position outside any transaction |
| `OlrWorker.Worker.FinishSnapshot` | src/backend/synchdb/synchdb.c:2737-2740 | the end of a snapshot sets the position and flushes it at once |
| `OlrWorker.Worker.SnapshotBatch` | src/backend/converter/debezium_event_handler.c:1783-1824 | the last snapshot event of a Debezium batch sets the position inside that batch, which commits or fails |
| `OlrWorker.ServeConnection` | src/backend/synchdb/synchdb.c:2562-2605 | all turns on one connection keep the history safe and the buffer valid |
| `OlrWorker.ServeOnce` | src/backend/synchdb/synchdb.c:2562-2585 | one turn: the bytes received so far are exactly those read, and no whole frame is left unparsed |
| `OlrWorker.Worker.Announce` | src/backend/synchdb/synchdb.c:2569-2585 | the history grows by exactly the confirm, if there is a commit SCN and a connection, and then the flush, if it is due |
| `OlrWorker.RunLaws` | src/backend/synchdb/synchdb.c:2562-2585 | in every safe and prompt history every announcement is justified and every due confirm is made at once, and no other |
| `OlrWorker.PromptMeans` | src/backend/synchdb/synchdb.c:2569-2583 | a commit to be confirmed has its confirm right behind it, a confirm has such a commit right before it, and an unforced flush comes right behind a confirm or the commit of a recorded batch |
| `OlrWorker.TurnKeepsPrompt` | src/backend/synchdb/synchdb.c:2562-2585 | a turn that confirms exactly after committed batches with a recorded event keeps the history prompt |
| `OlrWorker.Worker.Cleanup` | src/backend/synchdb/synchdb.c:2812-2827 | the exit flush is forced and records the current position |
| `OlrWorker.CommitBeforeConfirm` | src/backend/synchdb/synchdb.c:2562-2585 | in every safe run, whenever a position is confirmed or flushed without force, everything done in a transaction so far is committed and each component is the last positive value set, by the handler or outside it, or else the loaded one |
| `OlrWorker.ReplayIsLastPositive` | src/backend/olr/olr_client.c:294-300 | replaying a history leaves each component at its last positive value |
| `OlrWorker.CommittedUpTo` | src/backend/olr/olr_client.c:148-211 | what is not yet committed is always a suffix of the history, empty outside a transaction |
| `OlrWorker.ForcedFlushCoverage` | src/backend/synchdb/synchdb.c:2819-2826 | at exit everything done is committed if and only if the run did not end by aborting a batch in which something was done |
| `OlrWorker.ForcedFlushPosition` | src/backend/synchdb/synchdb.c:2819-2826 | the position that the exit flush records is the committed one if and only if, for each component, what the abort undid sets it last to the committed value or not at all |
| `OlrWorker.ForcedFlushAfterAbort` | src/backend/synchdb/synchdb.c:2819-2826 | a worker that starts at SCN 5, receives an event at SCN 7 and fails to commit it flushes SCN 7 at exit, while the committed position is 5 |
| `TokenQueue.Run` | src/backend/olr/oracle_parser16/liboracle_parser.c:407-779 | any number of calls, with DECLARE scans anywhere and queues of any length: without a UESCAPE clause no token is lost, duplicated or reordered, and each result has the kind its follower calls for; the results are exactly a reading of the stream, token by token, when WITH LOCAL does not occur either, and also, with both, when nothing is scanned and at most two tokens are pushed back at the start; a run that makes fewer calls ends in an error or the end of input |
| `TokenQueue.CallMeans` | src/backend/olr/oracle_parser16/liboracle_parser.c:633-776 | every call, for queues of any length: FORMAT_LA, NOT_LA, NULLS_LA, WITH_LA, WITHOUT_LA, LONG_RAW, IDENT and SCONST come out each if and only if the head and the kinds behind it call for it, any other head unchanged; the escape is a backslash without UESCAPE and the character of the string with it; a syntax error if and only if that is not a string of one acceptable character |
| `TokenQueue.StepMeans` | src/backend/olr/oracle_parser16/liboracle_parser.c:633-776 | the filter on a stream does the same with the true third token, and consumes two tokens exactly for LONG RAW and three exactly for a UESCAPE clause |
| `TokenQueue.FilterRunReads` | src/backend/olr/oracle_parser16/liboracle_parser.c:633-776 | a run of the filter reads its stream one result after another, until a syntax error or the end of input |
| `TokenQueue.EscapeChars` | src/backend/olr/oracle_parser16/liboracle_parser.c:828-840 | a UESCAPE character is anything but a hexadecimal digit, a plus sign, a quote or white space |
| `TokenQueue.ScanIs` | src/backend/olr/oracle_parser16/liboracle_parser.c:413-454 | the scan stops at the first semicolon, end of input or token behind CURSOR, and finds a cursor definition if and only if that is WITH, FOR or WITHOUT behind CURSOR |
| `TokenQueue.LookaheadKeepsStream` | src/backend/olr/oracle_parser16/liboracle_parser.c:621-623 | peeking and prefetching leave pushed-back-then-unread as it is, up to repeated end-of-input tokens, and taking removes its head |
| `TokenQueue.ResolveConsumes` | src/backend/olr/oracle_parser16/liboracle_parser.c:621-776 | the lookahead part consumes nothing, except RAW after LONG and the two tokens of a UESCAPE clause; these two if and only if the tokens pushed back behind UESCAPE, if any, repeat the first unread one |
| `TokenQueue.CallConsumes` | src/backend/olr/oracle_parser16/liboracle_parser.c:407-779 | a call removes exactly the tokens it stands for, for queues of any length; with a UESCAPE clause, if and only if the tokens pushed back behind it, if any, repeat the first unread one |
| `TokenQueue.CallFilters` | src/backend/olr/oracle_parser16/liboracle_parser.c:633-776 | a call is the filter on the logical stream if and only if at most one token is pushed back behind the current one, or the first unread token, which the code takes for the third, is like it |
| `TokenQueue.CallMisfilters` | src/backend/olr/oracle_parser16/liboracle_parser.c:679-691 | with more pushed back, WITH LOCAL is classified right if and only if the first unread token and the true third token agree on being TIME |
| `TokenQueue.DeclareMisleads` | src/backend/olr/oracle_parser16/liboracle_parser.c:407-454 | behind DECLARE c, the scan of WITH LOCAL TIME CURSOR FOR makes the next call classify WITH by the end of input |
| `TokenQueue.DeclareMovesEscape` | src/backend/olr/oracle_parser16/liboracle_parser.c:407-454 | behind DECLARE c, the scan of a U& literal with UESCAPE and a semicolon makes the clause take the string behind the semicolon |
| `TokenQueue.ScanKeepsStream` | src/backend/olr/oracle_parser16/liboracle_parser.c:413-454 | the scan leaves the stream unchanged however much it buffers |
| `TokenQueue.AccountsCall` | src/backend/olr/oracle_parser16/liboracle_parser.c:407-779 | after each call the results so far account for the stream up to what is left of it |
| `TokenQueue.ResultIsVersion` | src/backend/olr/oracle_parser16/liboracle_parser.c:633-776 | each result has the kind that its own and the next token call for, behind WITH LOCAL either way |
| `TokenQueue.Pushback.PushBack` | src/backend/olr/oracle_parser16/liboracle_parser.c:218-235 | appends to the queue, through the doubling of a full buffer |
| `TokenQueue.Pushback.Grow` | src/backend/olr/oracle_parser16/liboracle_parser.c:223-230 | doubling keeps the queue |
| `TokenQueue.Pushback.Forward` | src/backend/olr/oracle_parser16/liboracle_parser.c:251-268 | puts a token in front of the queue, into a stale slot or a rewound buffer |
| `TokenQueue.Pushback.CoreNext` | src/backend/olr/oracle_parser16/liboracle_parser.c:271-289 | takes the next token of the core lexer |
| `TokenQueue.Pushback.Next` | src/backend/olr/oracle_parser16/liboracle_parser.c:296-323 | takes the head of the queue, or else of the lexer, and rewinds an emptied queue |
| `TokenQueue.Pushback.Peek` | src/backend/olr/oracle_parser16/liboracle_parser.c:621-623 | returns the head of the logical stream and leaves the stream unchanged |
| `TokenQueue.Pushback.Prefetch` | src/backend/olr/oracle_parser16/liboracle_parser.c:685-686 | moves one token from the lexer to the end of the queue |
| `TokenQueue.Pushback.Eat` | src/backend/olr/oracle_parser16/liboracle_parser.c:709 | drops the head of the queue |
| `TokenQueue.Pushback.Resolve` | src/backend/olr/oracle_parser16/liboracle_parser.c:621-776 | result, queue and unread tokens are those of the lookahead step |
| `TokenQueue.Pushback.BaseLex` | src/backend/olr/oracle_parser16/liboracle_parser.c:569-779 | one call outside PL/SQL bodies is the step on queue and unread tokens, and answers what head, next and third token call for |
| `TokenQueue.Pushback.ScanDeclare` | src/backend/olr/oracle_parser16/liboracle_parser.c:413-454 | the scan behind DECLARE prefetches up to a semicolon, the end of input or the token after CURSOR, and says whether that one makes it a cursor definition |
| `UnicodeEscapes.Udeescape` | src/backend/olr/oracle_parser16/liboracle_parser.c:849-1005 | the result is the rendering of the two-phase reading, an error if and only if the reading rejects; no write leaves the doubling buffer, the final NUL included |
| `UnicodeEscapes.CombineAccepts` | src/backend/olr/oracle_parser16/liboracle_parser.c:907-926 | accepted are exactly the lists of valid code points in which surrogates come as a first immediately followed by a second (section 2.2 of RFC 2781), and no surrogate is ever emitted |
| `UnicodeEscapes.ReadingInvertsWriting` | src/backend/olr/oracle_parser16/liboracle_parser.c:881-976 | every mixture of plain characters, short and long escapes and code points beyond 0xFFFF written as surrogate pairs, in all four combinations of short and long, reads back as what was meant |
| `UnicodeEscapes.PairInverts` | src/backend/olr/oracle_parser16/liboracle_parser.c:908-916 | the surrogates made of the high and low ten bits of a code point combine to that code point (section 2.1 of RFC 2781) |
| `UnicodeEscapes.SurrogateBits` | src/backend/olr/oracle_parser16/liboracle_parser.c:908-922 | first and second surrogates are the numbers with leading bits 110110 and 110111 |
| `UnicodeEscapes.EscapesAccepted` | src/backend/olr/oracle_parser16/liboracle_parser.c:881-976 | escapes are accepted exactly in strings made of plain characters, doubled escapes, and escapes with four digits or a plus sign and six |
| `UnicodeEscapes.HexDigits` | src/backend/olr/oracle_parser16/liboracle_parser.c:806-818 | the hexadecimal digits of both letter cases and their values |
| `UnicodeEscapes.HexRoundTrip` | src/backend/olr/oracle_parser16/liboracle_parser.c:806-818 | the digits of a number below 16^n are read back as that number |
| `UnicodeEscapes.Turn` | src/backend/olr/oracle_parser16/liboracle_parser.c:869-984 | one turn of the loop keeps written-so-far plus rest equal to the reading |
| `UnicodeEscapes.RestAfterItem` | src/backend/olr/oracle_parser16/liboracle_parser.c:908-922 | the one-variable surrogate bookkeeping agrees with pairing up the whole list |
| `UnicodeEscapes.NextMove` | src/backend/olr/oracle_parser16/liboracle_parser.c:881-983 | one escape or character: fails only if the whole reading fails, else the reading is carried on behind it |
| `UnicodeEscapes.Enlarge` | src/backend/olr/oracle_parser16/liboracle_parser.c:871-879 | before each turn there is room for one more character and a NUL, and the contents move along |
| `UnicodeEscapes.AtEnd` | src/backend/olr/oracle_parser16/liboracle_parser.c:986-991 | at the end a waiting first surrogate is an error, otherwise all output has been written |
| `NameResolution.PathsAgree` | src/backend/converter/format_converter.c:4681-4767 | DDL and DML resolve an object to the same schema and table if and only if a rule maps it or all its name parts are non-empty and free of dots |
| `NameResolution.MappedTargetMeans` | src/backend/converter/format_converter.c:4681-4723 | for every text of a rule: it is read as schema and table if and only if it is a table alone (then in public), schema.table or database.schema.table with non-empty parts; any other text with dots is an error |
| `NameResolution.DottedDatabaseDiverges` | src/backend/converter/debezium_event_handler.c:796-835 | a database called a.b is looked up in another schema than it was created in |
| `NameResolution.SplitIdString` | src/backend/converter/format_converter.c:4607-4657 | the dot count and the strtok calls give the specified parts |
| `NameResolution.Strtok` | src/backend/converter/format_converter.c:4624-4641 | one strtok call takes the first non-empty part |
| `NameResolution.NormalizeName` | src/backend/converter/format_converter.c:5848-5876 | the in-place loop recases exactly the first len characters |
| `NameResolution.LettersRecased` | src/backend/converter/format_converter.c:5848-5876 | the strategies exchange the ASCII letters of one case for those of the other and keep everything else |
| `NameResolution.DmlColumn` | src/backend/converter/debezium_event_handler.c:1144-1162 | the DML path's column name is the DDL path's, for every rule table and strategy |
| `NameResolution.KeyColumnAgrees` | src/backend/converter/format_converter.c:801-819 | a primary-key clause names the column as the column list does if and only if no rule maps it or the rule's target already has the strategy's casing |
| `NameResolution.MappedKeyDiverges` | src/backend/converter/format_converter.c:801-819 | a rule that maps a column to Name under lower casing: the key clause says name |
| `CaseRestore.RestoreInvertsTransform` | src/backend/converter/olr_event_handler.c:600-610 | a delimited identifier, flipped and cut by the scanner, is restored if and only if it is shorter than 64 characters; of a longer one the first 63 characters are restored if and only if they mix letter cases or have no letters |
| `CaseRestore.LongNameIsFlipped` | src/backend/converter/olr_event_handler.c:600-610 | of 64 capitals the first 63 reach the handler unflipped and come out in lower case |
| `CaseRestore.LongMixedNameIsFlipped` | src/backend/olr/oracle_parser16/ora_scan.l:944-958 | so with 63 capitals and a b behind them, although that name has both cases |
| `CaseRestore.PlainIsRestored` | src/backend/converter/olr_event_handler.c:600-610 | a plain identifier, which Oracle stores in upper case, comes back in upper case, cut to 63 characters |
| `CaseRestore.ScanDelimited` | src/backend/olr/oracle_parser16/ora_scan.l:920-958 | the flipped identifier, cut to 63 characters |
| `CaseRestore.ScanPlain` | src/backend/olr/oracle_parser16/ora_scan.l:1267-1272 | the identifier in lower case, cut to 63 characters |
| `CaseRestore.IdentifierCaseTransform` | src/backend/olr/oracle_parser16/liboracle_parser.c:1331-1358 | upper becomes lower, lower becomes upper, mixed stays, by comparing with the recased copies |
| `CaseRestore.Recase` | src/backend/olr/oracle_parser16/liboracle_parser.c:1256-1329 | every character recased, cut to 63 |
| `CaseRestore.AllUpper` | src/backend/converter/olr_event_handler.c:64-74 | true if and only if there is no lower-case letter |
| `CaseRestore.AllLower` | src/backend/converter/olr_event_handler.c:76-86 | true if and only if there is no upper-case letter |
| `CaseRestore.RestoreAsIs` | src/backend/converter/olr_event_handler.c:600-610 | one-case names are flipped, others kept |
| `CaseRestore.KeyListRestores` | src/backend/converter/olr_event_handler.c:726-750 | restoring the whole key list equals restoring each key if and only if all key names share one case class |
| `CaseRestore.MixedKeysDiverge` | src/backend/converter/olr_event_handler.c:740-748 | the key list ID, Name is left alone although ID alone would be restored |
| `JsonAutomaton.ShallowRows` | src/backend/converter/debezium_event_handler.c:1031-1202 | a row of scalars and containers of scalars yields exactly its members, in order and once each: NULL, the text itself, true or false, an object as printed, an array with braces for its brackets; it ends with no pause and no pending key or value |
| `JsonAutomaton.RowIsFaithful` | src/backend/converter/debezium_event_handler.c:1420-1628 | for every row, however deeply nested, the output is the members in order, once each with the text their kind calls for, if and only if every member is tame: silent behind the first closing token of its container, and for an array that token closes an array; the pause is always over at the end |
| `JsonAutomaton.EveryMemberComesOut` | src/backend/converter/debezium_event_handler.c:1033-1200 | in every row, whatever leaks from other members, each member comes out under its name with the right text, except that an array whose first closing token closes an object keeps its brackets |
| `JsonAutomaton.ScalarEmits` | src/backend/converter/debezium_event_handler.c:1104-1140 | a scalar behind a pending key is emitted at once: NULL for null, the text of strings and numbers, true or false |
| `JsonAutomaton.BracedKeeps` | src/backend/converter/debezium_event_handler.c:1076-1082 | brackets at both ends become braces and nothing between them changes |
| `JsonAutomaton.SilentEmitsNothing` | src/backend/converter/debezium_event_handler.c:1037-1090 | exactly the silent token lists let no pair out: a pending key must not get a scalar, nor end a container where a top-level member of its name is found |
| `JsonAutomaton.FlatSilence` | src/backend/converter/debezium_event_handler.c:1089-1137 | without keys nothing leaks, and where every key has a scalar nothing else is silent |
| `JsonAutomaton.NestedContainerIsSilent` | src/backend/converter/debezium_event_handler.c:1037-1090 | the value {b: [null], c: {}} is passed over as a whole if and only if the row has no member c of its own |
| `JsonAutomaton.ParseRow` | src/backend/converter/debezium_event_handler.c:1031-1202 | the loop over key, value and pause is the token-by-token automaton |
| `JsonAutomaton.MembersRun` | src/backend/converter/debezium_event_handler.c:1031-1202 | what the automaton emits for any row, leaked pairs included |
| `JsonAutomaton.PauseAndClose` | src/backend/converter/debezium_event_handler.c:1037-1088 | a container up to its first closing token yields one pair |
| `JsonAutomaton.ScalarContainersAreTame` | src/backend/converter/debezium_event_handler.c:1037-1088 | containers that hold only scalars are passed over as a whole |
| `JsonAutomaton.NestedKeyEscapes` | src/backend/converter/debezium_event_handler.c:1037-1058 | the row {a: {b: [null], c: null}} does not come out as its member a alone |
| `SwapTokens.Swap` | src/backend/executor/replication_agent.c:50-111 | every write stays in the 256 bytes, and the result is the full expansion if and only if that has at most 254 characters, or 255 of which the last is a template character |
| `SwapTokens.FullBufferLosesArgument` | src/backend/executor/replication_agent.c:74-75 | the template %d with 255 characters of data loses the last one |
| `SwapTokens.TemplatesExpand` | src/backend/executor/replication_agent.c:65-107 | a template written from text (percent signs doubled) and %d, %w, %s expands to what it was written for, for all arguments |
| `SwapTokens.StrayPercent` | src/backend/executor/replication_agent.c:95-99 | a percent sign before any other character, or at the end, stands for itself |
| `SwapTokens.FilledIsExpansion` | src/backend/executor/replication_agent.c:65-108 | letter and argument copies lose nothing exactly under that bound |
| `SwapTokens.CopyBounded` | src/backend/executor/replication_agent.c:74-75 | the bounded copy appends the argument or its longest prefix that leaves a byte, and keeps the final NUL |
| `SwapTokens.NextPiece` | src/backend/executor/replication_agent.c:65-106 | the scan position always splits the template into pieces read and pieces to come |
| `BatchDecoder.DecodeBatch` | src/backend/synchdb/synchdb.c:860-918 | from any cut of a batch of non-empty events exactly the complete events are delivered, in order, with isfirst and islast on the first and last of the batch only |
| `BatchDecoder.IntBytes` | src/backend/synchdb/synchdb.c:866-885 | numbers are written as four bytes, high byte first |
| `BatchDecoder.NetIntIsTwosComplement` | src/backend/synchdb/synchdb.c:866-885 | ntohl of four bytes is their two's-complement value, high byte first |
| `BatchDecoder.DecodeOne` | src/backend/synchdb/synchdb.c:879-913 | one turn delivers the next event, or stops because it is incomplete |
| `BatchDecoder.HeaderFields` | src/backend/synchdb/synchdb.c:865-872 | tag, batch id and event count are read back |
| `BatchDecoder.EventInBuffer` | src/backend/synchdb/synchdb.c:882-893 | at each event's offset the loop finds its length and its bytes |
| `SchemaDiff.AlterConverges` | src/backend/converter/format_converter.c:5041-5300 | one ALTER event brings the live columns to the remote list, as PostgreSQL stores its names, if and only if it only adds or changes nothing, or only drops and neither lists a name of 64 or more characters nor is to drop a column whose name contains pg.dropped |
| `SchemaDiff.TwiceConverges` | src/backend/converter/format_converter.c:5041-5300 | exactly when the same event applied twice does so: an add mixed with a drop takes two rounds, a rename is never followed, and long names and names that contain pg.dropped can prevent it |
| `SchemaDiff.RenameIsNotFollowed` | src/backend/converter/format_converter.c:1733-1742 | a renamed column is never followed |
| `SchemaDiff.ReapplyingKeeps` | src/backend/converter/format_converter.c:5041-5300 | once the names agree, the same list leaves the catalog as it is |
| `SchemaDiff.AttributeNumbersPredicted` | src/backend/converter/format_converter.c:5141-5144 | for every catalog and every list, each added column gets the attribute number predicted for it if and only if the columns not found are, clipped to 63 characters, not there and not repeated |
| `SchemaDiff.LongNameMispredicted` | src/backend/converter/format_converter.c:5087-5144 | a table created with a column x of 64 characters and the list (x, b): b is predicted at 3 and gets 2 |
| `SchemaDiff.LongNameIsDropped` | src/backend/converter/format_converter.c:5201-5253 | a table with such a column x and a column b, and the list (x): both are dropped |
| `SchemaDiff.MarkedNameMispredicted` | src/backend/converter/format_converter.c:5083-5092 | a table with a column x whose name contains pg.dropped, and the list (x, b): b is predicted at 3 and gets 2 |
| `SchemaDiff.MarkedNameStays` | src/backend/converter/format_converter.c:5206-5208 | a table with such a column x and a column b, and the list (b): x is never dropped |
| `SchemaDiff.AddAllAppends` | src/backend/converter/format_converter.c:5047-5156 | executing an add appends exactly the columns that are really new, in order, behind all old attributes |
| `SchemaDiff.LiveAfter` | src/backend/converter/format_converter.c:5041-5300 | the live columns after an event are the union with the clipped names, the intersection with the full ones plus those that contain pg.dropped, or the old ones, by size of the lists |
| `SchemaDiff.SizesDecide` | src/backend/converter/format_converter.c:5041-5300 | a longer list always has a column to add; nothing is left to drop if and only if all live columns are wanted or contain pg.dropped |
| `SchemaDiff.DropsTheUnwanted` | src/backend/converter/format_converter.c:5201-5253 | dropping leaves every attribute in place and turns exactly the unwanted live ones without pg.dropped in their name into holes |
| `SchemaDiff.ConvertAlter` | src/backend/converter/format_converter.c:5041-5300 | the three branches produce the specified column plan or nothing |
| `SchemaDiff.ConvertAdd` | src/backend/converter/format_converter.c:5047-5156 | names not found become additions with consecutive numbers, the others placeholders |
| `SchemaDiff.FindAttribute` | src/backend/converter/format_converter.c:5078-5092 | the search succeeds exactly for unmarked attributes of that name, else stops one past the last number |
| `SchemaDiff.ConvertDrop` | src/backend/converter/format_converter.c:5190-5266 | attributes not wanted any more, in order, with their numbers |
| `SchemaDiff.StillWanted` | src/backend/converter/format_converter.c:5210-5241 | an attribute is kept if and only if its name is in the mapped list |
| `SchemaDiff.ComposeAlterColumnClauses` | src/backend/converter/format_converter.c:1614-1773 | each column is matched to its live attribute outside the primary key |
| `SchemaDiff.CountActiveColumns` | src/backend/converter/format_converter.c:428-440 | the number of attributes that are not dropped |
| `SchemaDiff.LiveCardinality` | src/backend/converter/format_converter.c:428-440 | with distinct names this is the number of live names |
| `AttributeMap.RunsStayInStep` | src/backend/converter/format_converter.c:3822-3964 | over every run of events the live columns are those of the latest list and each live attribute number maps to a remote column that resolves to it, if and only if every event is a CREATE of a missing or the same table, a pure add, a pure drop, an ALTER without name changes or a DROP TABLE, with the stated restrictions on names of 64 or more characters and names that contain pg.dropped |
| `AttributeMap.StepInStep` | src/backend/converter/format_converter.c:3822-3964 | so for one event, in both directions |
| `AttributeMap.RunsNameTheList` | src/backend/converter/format_converter.c:3883-3908 | if the lists of a run spell each column in one way, the row of each live attribute is the very text of its column in the latest list |
| `AttributeMap.SpellingAfter` | src/backend/converter/format_converter.c:1664-1665 | when a list respells a column in another letter case, its row follows if and only if the event writes it (a new attribute, or one outside the primary key in a same-size ALTER); otherwise the old text stays |
| `AttributeMap.RespelledKeyIsStale` | src/backend/converter/format_converter.c:1664-1665 | under lower casing, the list (id) after (ID) leaves the key column's row at ID |
| `AttributeMap.LongNameBreaksMap` | src/backend/converter/format_converter.c:5087-5144 | a table created with a column x of 64 characters, then the list (x, b): attribute 2 is b and its row says x |
| `AttributeMap.ShortIsInOrder` | src/backend/converter/format_converter.c:5087-5144 | with names below 64 characters that do not contain pg.dropped the order condition always holds |
| `AttributeMap.UpdateSynchdbAttribute` | src/backend/converter/format_converter.c:3883-3945 | the loops perform the upserts or the dropped-column marks |
| `AttributeMap.AddKeepsMap` | src/backend/converter/format_converter.c:3883-3908 | after an add the map is right for all live attributes, old and new, if and only if no column that PostgreSQL has already comes before a new one among those the code takes for new |
| `AttributeMap.AlterKeepsMap` | src/backend/converter/format_converter.c:3883-3908 | a same-size ALTER keeps every row resolving to its attribute, whatever the primary key |
| `AttributeMap.DropKeepsMap` | src/backend/converter/format_converter.c:3928-3944 | marking rows by letter-case-insensitive name touches no column that stays |
| `AttributeMap.DropMarksRow` | src/backend/converter/format_converter.c:3928-3944 | the row of a dropped column is overwritten with the marker text that carries the canonical numeral of its own number, cut at 63 characters, unless a later column dropped with it is called like that marker |
| `AttributeMap.MarkerIs` | src/backend/converter/format_converter.c:3930-3934 | the marker of a dropped column, in the row and in PostgreSQL's catalog, is the fixed text around the canonical decimal numeral of its number, cut at 63 characters |
| `AttributeMap.CreateMakesMap` | src/backend/converter/format_converter.c:4769-4815 | CREATE numbers the columns as PostgreSQL does and maps each of them, names clipped |
| `AttributeMap.CreateAgain` | src/backend/converter/format_converter.c:4769-4821 | CREATE of an existing table keeps the map right if and only if the live attributes at those numbers carry the remote names in the remote order |
| `AttributeMap.CreateAgainOverHole` | src/backend/converter/format_converter.c:4769-4821 | the table (a, b, c) without a, created again as (b, c): row 2 becomes c although attribute 2 is b |
| `AttributeMap.MapIsInjective` | src/backend/converter/format_converter.c:3883-3908 | two live attributes never share a remote column |
| `DataCache.CacheIsTransparent` | src/backend/converter/debezium_event_handler.c:863-990 | a run gives the same answers as one that reads the catalog for every event, if and only if no DML event in it has a name of 64 or more characters whose clipped form is cached |
| `DataCache.StepRefines` | src/backend/converter/debezium_event_handler.c:863-990 | so for one event, in both directions |
| `DataCache.StepCoherent` | src/backend/converter/debezium_event_handler.c:863-990 | each event keeps every cache entry equal to a fresh catalog read |
| `DataCache.ShortRunsAreTransparent` | src/backend/converter/debezium_event_handler.c:863-990 | from an empty cache, every run with names below 64 characters is transparent |
| `DataCache.DdlThenDml` | src/backend/converter/debezium_event_handler.c:863-990 | DML right behind a DDL event of a clean object learns the created or altered table, or the one a CREATE found, and stops after a DROP or an ALTER of a missing table |
| `DataCache.OthersStay` | src/backend/converter/format_converter.c:4905-5000 | an event touches the one table, and the one cache entry, that its target names |
| `DataCache.LongNamesCollide` | src/backend/converter/debezium_event_handler.c:863-875 | a name that goes on behind 63 cached characters is answered with the cached table's entry, where a fresh read finds no table |
| `DataCache.FillEntry` | src/backend/converter/debezium_event_handler.c:944-975 | the loop builds the entry of a fresh read |
| `DataCache.EntryFindsColumn` | src/backend/converter/debezium_event_handler.c:955-975 | each name stands for its first attribute's type, number, type modifier and key membership |
| `DataCache.EntryNames` | src/backend/converter/debezium_event_handler.c:955-975 | an entry knows the names of the attributes and no others |
| `DataCache.Worker.HandleDml` | src/backend/converter/debezium_event_handler.c:863-990 | a hit, a fill or the error of a missing table |
| `DataCache.Worker.HandleDdl` | src/backend/converter/format_converter.c:4997-5000 | ALTER and DROP remove the key before the statement is executed |
| `Lifecycle.RunsKeep` | src/backend/synchdb/synchdb.c:2390-2804 | at every loop head of every run the state is SYNCING, PAUSED, SCHEMA_SYNC_DONE or STOPPED, SCHEMA_SYNC_DONE only with a snapshot flag, and the request slot is empty after each turn |
| `Lifecycle.FlagsOnlyCleared` | src/backend/synchdb/synchdb.c:2633-2735 | no turn ever sets a flag |
| `Lifecycle.DoneIsLeft` | src/backend/synchdb/synchdb.c:2626-2735 | SCHEMA_SYNC_DONE is left in one turn, whatever is requested, with both snapshot flags clear |
| `Lifecycle.SnapshotEndsOnce` | src/backend/synchdb/synchdb.c:2390-2804 | a run passes SCHEMA_SYNC_DONE at most once and launches no snapshot afterwards |
| `Lifecycle.NoMoreSnapshots` | src/backend/synchdb/synchdb.c:2415-2430 | once both snapshot flags are clear no FDW snapshot is launched and none completes |
| `Lifecycle.StoppedForGood` | src/backend/synchdb/synchdb.c:1867-1877 | STOPPED is never left |
| `Lifecycle.PausedUntilResumed` | src/backend/synchdb/synchdb.c:1702-1768 | over every run a paused connector stays exactly as it is until a resume is requested |
| `Lifecycle.PausedBy` | src/backend/synchdb/synchdb.c:1669-1768 | a turn ends in PAUSED if and only if a pause request could stop the engine, a paused connector was not resumed, an FDW snapshot failed, or a schema sync ended |
| `Lifecycle.PauseThenResume` | src/backend/synchdb/synchdb.c:1669-1768 | a connector that is paused, waits any number of turns and is resumed goes on as if it had not been paused |
| `Lifecycle.AnswerMeans` | src/backend/synchdb/synchdb.c:1635-1922 | which requests change the state, and to what, with all their failures |
| `Lifecycle.LaunchedBy` | src/backend/synchdb/synchdb.c:2415-2430 | a turn launches an FDW snapshot if and only if it polls with a snapshot flag and the FDW engine, and not for SQL Server |
| `Lifecycle.DoneBy` | src/backend/synchdb/synchdb.c:2411-2619 | a turn ends in SCHEMA_SYNC_DONE if and only if its FDW snapshot completed, it received for a Postgres schema sync, or its batch ended with the last snapshot event |
| `Lifecycle.ExitsBy` | src/backend/synchdb/synchdb.c:2411-2619 | the exit signal comes if and only if a completion message is received, or an OLR connector polls without snapshot flags and with the no-CDC flag |
| `Lifecycle.StoppedBy` | src/backend/synchdb/synchdb.c:1824-1879 | STOPPED is entered if and only if a restart stops the engine and cannot start it again |
| `Lifecycle.SnapshotCompletes` | src/backend/synchdb/synchdb.c:3820-3827 | a successful FDW snapshot is over after one more turn: paused after a schema sync, syncing otherwise |
| `Lifecycle.SqlServerNeverLaunches` | src/backend/synchdb/synchdb.c:2470-2475 | no run of a SQL Server connector launches an FDW snapshot |
| `Lifecycle.NoCdcSurvives` | src/include/synchdb/synchdb.h:87-89 | the no-CDC flag survives a run if and only if the initial-snapshot flag has not been cleared in it |
| `Lifecycle.MacrosExpand` | src/include/synchdb/synchdb.h:87-89 | the masks are what the unparenthesised macros expand to |
| `Lifecycle.ClearInitialMeans` | src/backend/synchdb/synchdb.c:2672-2675 | clearing the initial-snapshot flag clears all three flags |
| `Lifecycle.NoCdcExit` | src/backend/synchdb/synchdb.c:2552-2560 | an OLR connector leaves the loop for want of CDC in a quiet turn if and only if it is syncing with clear snapshot flags and the no-CDC flag |
| `Lifecycle.SnapshotNeverExits` | src/backend/synchdb/synchdb.c:2552-2560 | an OLR connector that began with a snapshot never does |
| `Lifecycle.InitialOnlyKeepsRunning` | src/backend/synchdb/synchdb.c:4676-4720 | mode initial_only with the snapshot still to do: the flag is set and the worker yet stays in the loop |
| `Lifecycle.StartUp` | src/backend/synchdb/synchdb.c:4555-4770 | the worker exits instead of entering the loop if and only if it is an OLR connector with no snapshot to do and no CDC wanted; otherwise it starts in SYNCING, and for every connector type, engine, snapshot mode and snapshot state each of the three flags is set exactly when asked for |
| `Lifecycle.BatchCompletes` | src/backend/converter/debezium_event_handler.c:1979-1981 | a batch ends in SCHEMA_SYNC_DONE if and only if a snapshot flag is set and its last state-changing event is an applied last snapshot event |
| `Lifecycle.HiddenCompletion` | src/backend/converter/debezium_event_handler.c:2053-2055 | an ordinary event behind the last snapshot event hides it |
| `Lifecycle.TurnKeeps` | src/backend/synchdb/synchdb.c:2399-2410 | one turn, for every input, keeps the loop-head condition and empties the slot |
| `Lifecycle.Connector.ProcessRequest` | src/backend/synchdb/synchdb.c:1635-1922 | every request is answered as specified, through all failure exits, and the slot is emptied |
| `Lifecycle.Connector.Restart` | src/backend/synchdb/synchdb.c:1824-1879 | restart ends in SYNCING, or in STOPPED when the engine cannot be started again |
| `Lifecycle.Connector.ProcessEvent` | src/backend/converter/debezium_event_handler.c:1909-2057 | the state after an event that is skipped, fails or is applied |
| `Lifecycle.Connector.GetChange` | src/backend/synchdb/synchdb.c:860-918 | the state after a batch, and the exit message |
| `Lifecycle.Connector.LaunchSnapshot` | src/backend/synchdb/synchdb.c:3808-3858 | complete snapshots end in SCHEMA_SYNC_DONE, all others in PAUSED |
| `Lifecycle.Connector.Poll` | src/backend/synchdb/synchdb.c:2411-2619 | the SYNCING case for each connector type |
| `Lifecycle.Connector.FinishSnapshot` | src/backend/synchdb/synchdb.c:2626-2735 | the SCHEMA_SYNC_DONE case |
| `Lifecycle.Connector.Iterate` | src/backend/synchdb/synchdb.c:2397-2797 | one turn of the loop is the step function |
| `Lifecycle.Connector.MainLoop` | src/backend/synchdb/synchdb.c:2390-2804 | the loop over any inputs is the run, ended by an exit signal |
| `Registry.RunsStayUnique` | src/backend/synchdb/synchdb.c:2863-2905 | over every interleaving of starts, deletes and worker events, named slots stay unique up to letter case |
| `Registry.AssignedIsOursOrFree` | src/backend/synchdb/synchdb.c:2863-2905 | a slot handed out has the same name or is free, and -1 means there is neither |
| `Registry.UnnamedFirst` | src/backend/synchdb/synchdb.c:2880-2900 | a named free slot is taken over only when there is no unnamed one |
| `Registry.FoundAfterStart` | src/backend/synchdb/synchdb.c:2914-2930 | the exact-name lookup right after a start returns the slot handed out |
| `Registry.GoneAfterDelete` | src/backend/synchdb/synchdb.c:6519-6541 | after a delete the connector is not found any more, its slot is free and unnamed, and all other slots are as before |
| `Registry.LookupNeedsSpelling` | src/backend/synchdb/synchdb.c:2914-2930 | a start reuses the slot of a name in any letter case; the lookup finds it if and only if the spelling is identical |
| `Registry.Slots.AssignConnectorId` | src/backend/synchdb/synchdb.c:2863-2905 | the three loops find the first same-named, first unnamed free or first free slot |
| `Registry.Slots.IdByName` | src/backend/synchdb/synchdb.c:2914-2930 | the loop finds the first exact match or -1 |
| `Registry.Slots.StartConnector` | src/backend/synchdb/synchdb.c:1466-1475 | name and database of the slot handed out are overwritten, nothing else |
| `Registry.Slots.DeleteConnector` | src/backend/synchdb/synchdb.c:6519-6541 | the slot of that exact name is wiped, nothing else |

## Left out

- JNI and JVM calls, SPI and executor calls, sockets, files, clocks and logging: their outcomes are inputs of the model.
- Memory contexts and allocation failure, and the 32-bit overflow of buffer offsets and lengths.
- Base64 decoding and the protobuf messages, as library code.
- Timestamp, date, time and interval rendering, and the default type-mapping tables.
- Quoted bit strings, whose prefix is not part of the returned string.
- BitStrings.BitString: at least one byte, and padding only when typemod has room for the bytes; the original computes a negative zero count otherwise.
- BitStrings.ReverseByteArray: at least one byte; the original computes length - 1 unsigned.
- OlrBuffer.FrameBuffer.Next: the bytes show no negative frame length, for the same reason as OlrWorker.Worker.GetChange below.
- FastDecode.DeriveValue: 1 to 7 bytes, the range the original uses it for.
- OlrWorker.Worker.Batch: as OlrWorker.Worker.GetChange.
- OlrWorker.Worker.CaptureIteration: as OlrWorker.Worker.GetChange.
- OlrWorker.Worker.GetChange: the bytes read never show a negative frame length, which holds for every peer that sends frames (OlrFrames.FramesAreSound); the handler's return code for the statistics is not modelled.
- OlrWorker.RunWorker: each connection's reads are a cut of a stream of frames.
- OlrWorker.Worker.HandleEvent: which events record a position is an input; parsing and applying an OLR event is not modelled.
- TokenQueue.Pushback.BaseLex: outside PL/SQL bodies; source locations and the truncation of the scan buffer are not modelled, and the two parallel pushback arrays are one array of pairs.
- TokenQueue.Run: which calls scan behind DECLARE is an input; runs over streams with a UESCAPE clause are covered for short queues, and call by call for all (TokenQueue.CallFilters, TokenQueue.CallConsumes).
- The Oracle grammar, keyword tables and the core lexer, which is a token sequence here.
- UnicodeEscapes.Udeescape: the conversion to the server encoding is a parameter that always succeeds and yields at most 16 bytes.
- NameResolution.PathsAgree: names are ASCII, and rule identifiers are not cut to the size of the rule table's key fields.
- The TRUNCATE name path, which normalises only the database part.
- CaseRestore.RestoreInvertsTransform: ASCII letters; locale-dependent case of other characters is not modelled.
- JsonAutomaton.RowIsFaithful: a path lookup finds each member that is a container by its name, which holds for names without dots.
- Delete events and OLR row images, which are parsed by other code.
- BatchDecoder.DecodeBatch: events are not empty and the buffer holds the nine header bytes; for an empty event the original skips four bytes too many.
- SchemaDiff.ConvertAlter: the connectors other than OLR, which is told added and dropped columns directly; types, defaults, NOT NULL and primary-key clauses of the statement are not modelled.
- AttributeMap.RunsStayInStep: one remote table without column rules; each list has names that differ by more than letter case, also when cut to 63 characters, and none that is PostgreSQL's own name for a dropped column.
- SchemaDiff.AlterConverges: the same restrictions on a list, letter case aside.
- AttributeMap.DropMarksRow: says nothing when a later column dropped with it is called like the marker that is written.
- DataCache.CacheIsTransparent: the exit-on-error strategy, fixed rules and a catalog changed by this worker only; the position hash of the JSON schema section is not part of an entry.
- Rule reload and the skip strategy, which do not keep the cache coherent.
- Lifecycle.Connector.ProcessRequest: posting a request is one step; two sessions that post at once can overwrite each other's request.
- Lifecycle.StartUp: errors end the worker and are not described; the OLR connection handshake is taken to succeed.
- The connector's stage, statistics, error messages and offsets shown to users.
- Registry.RunsStayUnique: names are not empty, and each step on the slots is atomic.
- The SQL functions that only validate and store connection, JMX, SSL and Infinispan settings.
