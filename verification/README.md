# Verified models of the ld_sdk core

A Dafny model of the parts of the repository whose correctness is hardest to see by reading: the
lock-free ring of the FNLog logger, the JSON reader and writer behind `lidig_json`, the HTTP parser
and its URL splitter, the SHA-1 and MD5 streaming hashes, CRC-16 and Base64.
`dafny verify dfyconfig.toml` checks everything.

## What is modelled

**The logger's ring** (`ring_buffer.dfy`, `ring_invariant.dfy`, `ring_theorems.dfy`,
`ring_drain.dfy`, `ring_lap.dfy`). `RingBuffer.Step` is one atomic load, store, add or
compare-and-swap of one thread; a schedule interleaves any number of threads in any order, for every
ring length of at least 2, in sync and in async mode. Indices are ever-growing tickets, and every
comparison the code makes is made on the wrapped index `Slot(ticket)`. `RingInvariant.Inv` holds in
every reachable state. It yields the zones of the ring and their owners, exactly-once delivery of
unchanged text, in-order delivery for the async consumer, and that nothing is stranded once no
thread is at work in sync mode, although a thread that loses a race simply leaves. The proof of the
last rests on `Attended`: whenever a slot can be published, claimed or recycled, some thread is
still going to look at it. In async mode the consumer makes progress: left alone, it claims and
dispatches everything in a bounded number of steps (`RingDrain`). The one assumption, `GuardHolds`,
is about swaps of a wrapped index that go through although the index has been round since the thread
loaded it: what the thread tested must hold now. It is exact: from the invariant, a step keeps the
invariant if and only if it meets the assumption (`RingInvariant.StepExactly`, and
`RingTheorems.RunExactly` for whole runs). It is met whenever no thread sleeps for a whole lap
between loading an index and its compare-and-swap (`NoLap`); `RingLap.SleepingBreaksRing` is a run
that breaks the ring otherwise.

**JSON** (`json_*.dfy`). `JsonGrammar` says as functions what the reader accepts and `JsonText` what
the writer produces; the classes `JsonReader.Reader` and `JsonWriter.Writer` move a cursor, a stack
and an output stream in place as the code does and are proved against them for every document and
every value. Between the two stands the round trip for every value whose doubles print as JSON
numbers with a fraction or an exponent that read back as those doubles: `JsonRoundTrip.Restored`
says what comes back, and `JsonExact` says when that is the value itself, namely if and only if
every string and key in it is well-formed UTF-8 and within the reader's length limits, every
unsigned integer in it is one that a signed integer could not hold, and it is nested no deeper than
the reader's stack limit. Strings come back unchanged if and only if they are well-formed UTF-8, and
are repaired otherwise; integers are read exactly if and only if they fit 64 bits. Texts that the
writer would not make are covered too: `JsonLiterals` says for every string literal of section 7 of
RFC 8259, escapes in any case and surrogate pairs included, what it stands for, and that the reader
takes those literals and no others. `JsonValue` has the order on values and its laws; `JsonOrder`
says which order it is, without the code's comparison. A double is a real number there.

**HTTP** (`http_*.dfy`). `HttpTurn.Byte` is what `http_parser_execute` does with one byte, in strict
mode, for requests and responses, lenient or not, with the callbacks it makes before it fails.
`HttpRun.Call` is one call, with the data marks and the callbacks. The class
`HttpExecute.HttpParser` runs the code's own loops, which take whole runs of header and body bytes
at once, and is proved equal to `Call`, errors and the place of the failing byte included, unless
the header overflows. On top: the callbacks and the final state do not depend on how the input is
cut into calls; the framing invariant, so that no assertion of the code can fail; exact
Content-Length and chunk sizes; and bodies that a session receives piece by piece, chunked with
trailer fields or of known length, decode to their payloads. `HttpNames`, `HttpValues`,
`HttpOptions` and `HttpHeads` say what each header field tells the parser, with any name and any
value on one line, lists of codings and options included; with `HttpStarts`, `HttpMessages` puts
whole messages together from what a sender writes, a request or status line, fields, an empty line
and a body: a parser of either kind tells them as they were sent, the body framed as the fields say,
stops where another protocol follows, and gives the right error where the fields cannot frame a
body, cut into calls in any way. `HttpConversations` has any number of requests on one connection.
`HttpUrl` splits URLs through the two automata of `http_parser_parse_url`; `HttpCompose` has the
same URLs as texts written from a schema, a server, a path, a query and a fragment, without the
automata.

**Hashes and codes** (`sha1.dfy`, `sha1_stream.dfy`, `md5.dfy`, `crc16.dfy`, `base64.dfy`). SHA-1's
16-word circular schedule, rewritten boolean functions and rotated names refine the 80-word method
of section 6.1 of RFC 3174, and both streaming hashes equal the fold over the padded message however
it is cut. CRC-16 detects every change within two adjacent octets if and only if bit 15 of the
multinomial is set. Base64 is the standard's encoding, over its alphabet, and its decoder inverts
it.

## Where the code differs from what one might expect

- The table `unhex` has 256 entries and 128 initialisers, so the bytes 0x80 to 0xFF count as the
  digit 0 in a chunk size. `HttpChunks.HighBytesAreZeros` has a size line without any digit that
  ends the body, and a size of 5 that is read as 80. `HttpChunks.ChunkSizeExact` says which sizes
  are taken and as what number, for all byte strings, and `HttpChunks.SizeReadIsDenoted` that the
  number is the one the hexadecimal digits denote exactly when no digit but 0 stands before a byte
  of the upper half.
- A JSON value does not always come back as it was written (`JsonExact.RoundTripExactly`). In
  particular an unsigned integer that fits a signed one is read back signed, and is then not equal
  to what was written (`JsonExact.SmallUnsignedComesBackSigned`).
- After a comment that follows an object member, the JSON reader lets any one token pass for the
  comma. `JsonComments.StrayColonTaken` is a document with a colon there that is read as an object
  of two members; `JsonComments.StrayTokenExactly` says for every text when this makes a
  difference.
- A C-style comment may also end at a slash that is the last byte of the document, so `/*/` is one
  (`JsonComments.SlashStarSlash`); `JsonComments.CStyleExactly` says for every text where such a
  comment ends.
- A lone `-` is a number token to the JSON reader and decodes to the integer 0
  (`JsonNumbers.LoneMinusIsZero`; `JsonNumbers.IntegerLiteral` covers every other number token).
- The Content-Length limit is conservative: the numbers above 2^64 - 7 are refused although a few
  of them would fit (`HttpLengths.ContentLengthExact`); chunk sizes stop at 2^64 - 17
  (`HttpChunks.ChunkSizeExact`).
- In a string literal the reader takes any code unit after a high surrogate as if it were the low
  one with the same ten last bits, and a low surrogate alone for the three bytes that carry it
  (`JsonLiterals.Pairs`, `JsonLiterals.IsLoneLow`); all other literals mean what the standard
  says.
- A header name that only begins with Transfer-Encoding makes the parser note a transfer coding,
  although its value is then not looked at (`HttpNames.LongerNamesCount`).
- In a list of transfer codings or connection options the parser does not hear every one
  (`HttpOptions.Heard`). The comma after an option that could still become one of its words is
  lost, and with it the next option: `Transfer-Encoding: c, chunked` is not chunked
  (`HttpOptions.SwallowedComma`). A tab after a comma, an empty option, or one that begins with an
  underscore or no token character ends the hearing, and a tab after a word hides it.
  `HttpOptions.AllHeard` says when none of this matters.
- A response of status 1xx, 204 or 304 has its body read if a field gives it a length above 0 or
  the chunked coding; without such a field it has none, but for a coding other than chunked, after
  which all up to the end of the connection is the body (`HttpMessages.Frames`).
- The trailer of a chunked body counts towards the 80 KiB of the next message's header
  (`HttpMessages.StillCounted`).
- A field that gives a coding other than chunked last does not undo an earlier field that ends in
  chunked: one such field is enough (`HttpMessages.SomeChunked`).
- URLs: after a server a fragment needs a path or a query before it, a schema needs a server, any
  number of `#` before the fragment's text is left out of it, and the target of CONNECT is a host
  and a port, though the marks of user information, a query or a fragment may stand there with
  nothing between (`HttpCompose.Proper`, and `HttpCompose.WellFormedIsWritten` for the iff).
- The logger's consumer has a branch for losing the claim that its comment says will not be hit.
  With the single consumer of async mode that is so (`RingTheorems.AsyncClaims`); in sync mode
  every producer then consumes, and `RingLap.ClaimCanBeLost` is a reachable state in which a
  thread is about to lose. Losing is harmless (`RingTheorems.DrainedAtRest`).
- `base64_encode` counts characters in an unsigned int: it returns their number modulo 2^32, and
  the encoding is right if that does not wrap (`Base64.Encode`).

## Model

| member | source | states |
|---|---|---|
| RingBuffer.SlotIsRemainder | include/util/fn_log.h:2921-2922 | stepping an index and wrapping it at the ring length gives the ticket modulo that length |
| RingBuffer.SlotDistinct | include/util/fn_log.h:2920-2929 | two tickets less than one lap apart never share a slot |
| RingInvariant.CasIsCurrent | include/util/fn_log.h:3105-3112 | under the no-lap assumption a compare-and-swap on the wrapped index succeeds only with the current ticket, for all four indices |
| RingInvariant.NoLapSuffices | include/util/fn_log.h:3105-3112 | a thread that has not slept for a lap meets the standing assumption: what it tested before its swap holds now |
| RingInvariant.StepKept | include/util/fn_log.h:2911-3001 | every atomic step of every thread, in HoldChannel, LogStream, PushChannel or EnterProcChannel, keeps the whole invariant under the standing assumption |
| RingInvariant.StepExactly | include/util/fn_log.h:3105-3168 | from the invariant, a step keeps it if and only if a swap that goes through does so while its guard holds: room to hold, a READY slot to push, a published one to claim, an INVALID one to recycle |
| RingTheorems.InitInv | include/util/fn_log.h:3693-3695 | the zeroed shared memory satisfies the invariant |
| RingTheorems.RunKept | include/util/fn_log.h:3062-3175 | the invariant holds after every interleaving of any number of threads that meets the standing assumption |
| RingTheorems.RunExactly | include/util/fn_log.h:3062-3175 | the invariant holds all along an interleaving if and only if that meets the standing assumption |
| RingTheorems.NeverLappedRuns | include/util/fn_log.h:3105-3112 | an interleaving in which no thread sleeps for a lap meets it |
| RingTheorems.UnlappedIsReachable | include/util/fn_log.h:3105-3112 | what holds in every reachable state holds in every state reached without a lap of sleep |
| RingTheorems.RingSafety | include/util/fn_log.h:3099-3168 | in every reachable state read <= proc <= write <= hold <= read + L - 1; slots of [proc, write) are READY and nobody's, of [read, proc) INVALID or READY with exactly one consumer, of [write, hold) READY or with exactly one owner, all others INVALID |
| RingTheorems.OwnerUndisturbed | include/util/fn_log.h:3144-3149 | when a producer publishes, its slot holds exactly the text it composed, whatever the others did |
| RingTheorems.ExactlyOnce | include/util/fn_log.h:2920-2937 | no ticket is dispatched twice, each is dispatched with the text its producer published, and every claimed ticket is dispatched or about to be by its one claimer |
| RingTheorems.AsyncInOrder | include/util/fn_log.h:2916-2937 | with the single async consumer the k-th dispatched record is the k-th held one |
| RingTheorems.DrainedAtRest | include/util/fn_log.h:2918-2969 | in sync mode, when no thread is between hold and the end of its push and process calls, the four indices and the three counters agree and every ticket won was dispatched |
| RingTheorems.AsyncClaims | include/util/fn_log.h:2920-2933 | the single async consumer never loses a claim: at its swap, the index it loaded is the current one |
| RingDrain.AsyncDrains | include/util/fn_log.h:2911-3001 | async progress: from every reachable state in which the other threads are at rest, the consumer alone, in any run of at least 12 (hold - read) + 5 steps, brings read, proc and write up to hold, the three counters to the same number, and dispatches every ticket with the text its producer published |
| RingLap.SleepingBreaksRing | include/util/fn_log.h:3105-3112 | a two-slot ring reaches, without anyone sleeping for a lap, a state where a thread that has slept for one swaps and hold is then a whole lap past read |
| RingLap.ClaimCanBeLost | include/util/fn_log.h:2926-2933 | in sync mode a two-slot ring reaches, without anyone sleeping for a lap, a state where a thread is about to lose its claim |
| JsonValue.BytesLessIsDictionary | util/lib_json/json_value.cpp:295-324 | the key order by memcmp and length is the dictionary order on bytes, and key equality is equality of the bytes |
| JsonValue.Trichotomy | util/lib_json/json_value.cpp:490-538 | exactly one of a < b, a == b, b < a, through nested arrays and objects |
| JsonValue.Transitive | util/lib_json/json_value.cpp:490-538 | the order on values is transitive |
| JsonValue.EqualIsIdentity | util/lib_json/json_value.cpp:546-586 | operator== holds exactly of identical values |
| JsonValue.CompareIsOrder | util/lib_json/json_value.cpp:482-488 | compare is 0 exactly on equal values, antisymmetric and transitive |
| JsonOrder.LessIsBefore | util/lib_json/json_value.cpp:490-538 | operator< is the order by type, in the order of the enumeration, then numbers numerically, false before true, strings by the dictionary, arrays and objects by size and then at the first index where they differ |
| JsonOrder.CompareIsBefore | util/lib_json/json_value.cpp:482-488 | compare is negative exactly where that order has the first value before the second, and positive exactly where it has the second before the first |
| JsonNumbers.UintToString | util/lib_json/json_tool.h:81-87 | writes the numeral and a NUL backwards into at most 21 bytes and changes no other |
| JsonNumbers.IntToString | util/lib_json/json_writer.cpp:94-108 | prints every int64, the smallest too, within the fixed buffer |
| JsonNumbers.UIntToString | util/lib_json/json_writer.cpp:110-116 | prints every uint64 within the fixed buffer |
| JsonNumbers.DecodeNumber | util/lib_json/json_reader.cpp:1562-1640 | the loop on 64-bit words never overflows and computes the specified integer or falls back to double |
| JsonNumbers.IntegerLiteral | util/lib_json/json_reader.cpp:1562-1640 | an optional minus and digits decode to the exact integer if and only if it lies in [-2^63, 2^64-1], signed where that fits |
| JsonNumbers.PrintThenDecode | util/lib_json/json_writer.cpp:94-116 | printing any 64-bit integer and decoding the text returns the same number |
| JsonNumbers.LoneMinusIsZero | util/lib_json/json_reader.cpp:1562-1640 | a minus alone decodes to the integer 0 |
| JsonStrings.ValueToQuotedString | util/lib_json/json_writer.cpp:275-350 | the escaping loop, with its shortcut for plain strings, produces the specified quoted text |
| JsonStrings.QuotedIsAscii | util/lib_json/json_writer.cpp:275-350 | for every byte string the quoted text holds only bytes 0x20 to 0x7F |
| JsonStrings.ScanQuoted | util/lib_json/json_reader.cpp:1422-1432 | readString consumes exactly the quoted text, whatever follows it |
| JsonStrings.DecodeString | util/lib_json/json_reader.cpp:1680-1731 | the decoding loop computes the specified string, or fails exactly where it does |
| JsonStrings.DecodeEscaped | util/lib_json/json_reader.cpp:1680-1782 | decoding an escaped string gives it back with every ill-formed part replaced, surrogate pairs included, for every byte string |
| JsonStrings.RepairedIsWellFormed | util/lib_json/json_writer.cpp:188-237 | what utf8ToCodepoint puts in place of ill-formed bytes makes the string well-formed UTF-8 |
| JsonStrings.WellFormedIsFixed | util/lib_json/json_tool.h:39-65 | decoding a code point and encoding it again leaves every well-formed UTF-8 string unchanged |
| JsonStrings.StringRoundTrip | util/lib_json/json_writer.cpp:188-350 | a string is unchanged by writing and reading if and only if it is well-formed UTF-8, and is repaired otherwise |
| JsonLiterals.HasCharacter | util/lib_json/json_tool.h:39-65 | the bytes made for a scalar value are the well-formed UTF-8 character that carries it |
| JsonLiterals.LiteralDecodes | util/lib_json/json_reader.cpp:1680-1782 | every list of plain bytes, short escapes, code units in hexadecimal of either case and surrogate pairs decodes to what its items stand for, one after another |
| JsonLiterals.TokenIsLiteral | util/lib_json/json_reader.cpp:1422-1432 | what stands between the quotes of a string token decodes to a text if and only if it is such a list that stands for that text |
| JsonLiterals.LiteralReads | util/lib_json/json_reader.cpp:1056-1146 | a string literal, whatever follows it, reads as the string it stands for and leaves exactly the rest |
| JsonLiterals.LiteralDocument | util/lib_json/json_reader.cpp:1010-1054 | a document that is a string literal parses as what it stands for |
| JsonReader.Reader.GetNextChar | util/lib_json/json_reader.cpp:1814-1818 | takes one byte, or gives NUL at the end |
| JsonReader.Reader.SkipSpaces | util/lib_json/json_reader.cpp:1269-1277 | passes exactly the white space |
| JsonReader.Reader.Match | util/lib_json/json_reader.cpp:1289-1298 | consumes the pattern if it is there and nothing otherwise |
| JsonReader.Reader.ReadString | util/lib_json/json_reader.cpp:1422-1432 | scans to the first quote that no backslash hides |
| JsonReader.Reader.ReadNumber | util/lib_json/json_reader.cpp:1396-1421 | consumes the longest integral, fractional and exponential parts |
| JsonReader.Reader.ReadCStyleComment | util/lib_json/json_reader.cpp:1366-1378 | ends after the first star and slash, or at a slash that is the document's last byte |
| JsonReader.Reader.ReadCppStyleComment | util/lib_json/json_reader.cpp:1380-1394 | ends after LF, CR or CR LF |
| JsonReader.Reader.ReadComment | util/lib_json/json_reader.cpp:1300-1332 | chooses the comment by its second character and fails on any other |
| JsonReader.Reader.ReadToken | util/lib_json/json_reader.cpp:1158-1267 | the token the grammar has at the cursor, with its kind, extent and rest |
| JsonReader.Reader.SkipCommentTokens | util/lib_json/json_reader.cpp:1148-1156 | the first token that is no comment |
| JsonReader.Reader.ReadValue | util/lib_json/json_reader.cpp:1056-1146 | reads what the grammar reads, fails where it fails, throws past the stack limit and restores the stack |
| JsonReader.Reader.ReadObject | util/lib_json/json_reader.cpp:1446-1508 | members up to the closing brace, later duplicates overwriting, with the code's treatment of commas and comments |
| JsonReader.Reader.ReadArray | util/lib_json/json_reader.cpp:1510-1550 | elements up to the closing bracket, a trailing comma allowed |
| JsonReader.Reader.Parse | util/lib_json/json_reader.cpp:1010-1054 | byte order mark, one value and the token after it, exactly as the grammar says |
| JsonWriter.Writer.WriteIndent | util/lib_json/json_writer.cpp:1088-1098 | a line feed and the current indentation, or nothing on a single line |
| JsonWriter.Writer.WriteWithIndent | util/lib_json/json_writer.cpp:1100-1105 | indents unless that was done, then writes |
| JsonWriter.Writer.WriteValue | util/lib_json/json_writer.cpp:941-1002 | the stream grows by exactly the text of the value at its depth, and the indentation is restored |
| JsonWriter.Writer.WriteArrayValue | util/lib_json/json_writer.cpp:1004-1052 | the elements, each on its own line, in order |
| JsonWriter.Writer.Write | util/lib_json/json_writer.cpp:926-940 | the stream grows by the document's text |
| JsonComments.CStyleExactly | util/lib_json/json_reader.cpp:1366-1378 | a C-style comment ends at the first star and slash; without any, it is a comment if and only if the document ends with a slash |
| JsonComments.SlashStarSlash | util/lib_json/json_reader.cpp:1300-1378 | slash, star and slash at the end of a document are a whole comment |
| JsonComments.StrayTokenExactly | util/lib_json/json_reader.cpp:1493-1504 | the text after a member is taken otherwise than a required comma or brace would be, if and only if a comment comes first, then some other token, and then what could follow a comma |
| JsonComments.StrayTokenIsComma | util/lib_json/json_reader.cpp:1493-1504 | that token is ignored and stands for a comma |
| JsonComments.StrayColonTaken | util/lib_json/json_reader.cpp:1446-1508 | a document with an empty comment and a colon between two members is read as an object of both |
| JsonRoundTrip.ValueReads | util/lib_json/json_reader.cpp:1056-1146 | the text of any value whose doubles read back, inside any document, reads as the value restored and leaves exactly the rest, or throws if the value is past the reader's limits |
| JsonRoundTrip.DoubleTokenRead | util/lib_json/json_reader.cpp:1396-1421 | a JSON number with a fraction or an exponent is one number token, and no integer |
| JsonRoundTrip.DocumentReads | util/lib_json/json_writer.cpp:941-1052 | parsing the written text consumes all of it and gives the value restored, or throws past the limits, single-line or indented |
| JsonExact.AcceptedIsShallow | util/lib_json/json_reader.cpp:1056-1060 | for a writable value the reader's limits come down to a nesting of at most 1000 |
| JsonExact.WritableComesBack | util/lib_json/json_writer.cpp:941-1052 | restoring leaves a writable value as it is |
| JsonExact.UnchangedIsWritable | util/lib_json/json_reader.cpp:1056-1550 | a value that comes back unchanged is writable, at every depth |
| JsonExact.RoundTripExactly | util/lib_json/json_reader.cpp:1056-1550 | of all values that the library can hold and whose doubles read back, those and only those come back that are writable and nested no deeper than 1000 |
| JsonExact.SmallUnsignedComesBackSigned | util/lib_json/json_reader.cpp:1562-1640 | an unsigned integer up to 2^63-1 is read back as a signed one, which operator== tells apart |
| JsonLibrary.ValueToString | include/util/lidig_json.h:15-26 | produces the document's text for every value of 64-bit integers |
| JsonLibrary.StringToValue | include/util/lidig_json.h:28-42 | parses as the grammar does; from the text of a value whose doubles read back it gives the value restored or throws, and the value itself exactly if that is writable and shallow enough |
| HttpTypes.Unhex | util/http_parser.cpp:224-233 | the table gives a digit's value, 0 for the bytes from 0x80 on, which have no initialiser, and -1 for the others |
| HttpRun.ByteShape | util/http_parser.cpp:641-2148 | every byte moves the data marks in one of the shapes that go with its state; so at most one mark is set |
| HttpCut.CutOnce | util/http_parser.cpp:641-2148 | byte by byte, a call on a and then a call on b end as one call on a + b: same parser, bytes read and error, and same callbacks once adjacent data is joined; if the one call fails, the two tell everything it tells, and beyond that at most the beginning of the data it never tells |
| HttpCut.CutIndependence | util/http_parser.cpp:641-2148 | the same for every way to cut the input into calls with data, from every parser state |
| HttpFraming.InitiallyFramed | util/http_parser.cpp:2218-2226 | the initial parser satisfies the framing invariant |
| HttpFraming.ByteKeeps | util/http_parser.cpp:1535-2109 | every byte keeps the framing invariant and makes no assertion fail, neither those on content_length, nread and F_CHUNKED nor those on the header states |
| HttpFraming.RunFramed | util/http_parser.cpp:1937-2132 | along every run the invariant holds and no assertion fails |
| HttpFraming.SwitchedFits | util/http_parser.cpp:969-1020 | a method that replaces another is long enough for the index already reached |
| HttpFraming.HexDigitFits | util/http_parser.cpp:2028-2036 | the conservative limit keeps a chunk size below the "absent" value |
| HttpExecute.HttpParser.constructor | util/http_parser.cpp:2218-2226 | a parser with nothing read, in the start state of its type |
| HttpExecute.HttpParser.Count | util/http_parser.cpp:154-161 | counts header bytes and reports the overflow |
| HttpExecute.HttpParser.Callback | util/http_parser.cpp:105-141 | tells exactly the bytes since the mark and clears it |
| HttpExecute.HttpParser.TakeField | util/http_parser.cpp:1254-1389 | taking a whole run of name bytes does what they do one at a time, or fails at the same byte with the same error and callbacks; an overflow is reported later in the same name |
| HttpExecute.HttpParser.EndField | util/http_parser.cpp:1379-1388 | the colon that ends a name, or the byte that is refused there |
| HttpExecute.HttpParser.TakeValue | util/http_parser.cpp:1480-1704 | the same for header values, with the fast loop for plain ones; where the value overflows, the callback for its end may have been made, or a byte of it that is refused be reported instead |
| HttpExecute.HttpParser.PassValue | util/http_parser.cpp:1501-1695 | the bytes inside a value, one that is looked at or a row that is not |
| HttpExecute.HttpParser.EndValue | util/http_parser.cpp:1486-1499 | the CR or LF that ends a value; on overflow at CR the callback is made first |
| HttpExecute.HttpParser.TakeBody | util/http_parser.cpp:1937-1978 | taking all the body there is does what its bytes do one at a time |
| HttpExecute.HttpParser.EndBody | util/http_parser.cpp:1949-1987 | the last body byte tells the data, then the end of the message |
| HttpExecute.HttpParser.TakeOne | util/http_parser.cpp:716-1252 | a state that takes single bytes does what the per-byte function says and keeps the marks right; a failing one makes its callbacks first |
| HttpExecute.HttpParser.AtEnd | util/http_parser.cpp:663-682 | the end of the connection completes a body that is read until then, is ignored between messages, and is an error elsewhere |
| HttpExecute.HttpParser.FlushAll | util/http_parser.cpp:2118-2140 | the callback due for the one mark that is left, and no other |
| HttpExecute.HttpParser.Turn | util/http_parser.cpp:711-2116 | one turn of the loop advances the run by exactly the bytes it takes, or fails as the run does |
| HttpExecute.HttpParser.Execute | util/http_parser.cpp:641-2148 | on every input on which the header does not overflow the batch loops end exactly as the per-byte call does: same callbacks, bytes read and error, and without error the same parser; an overflow is reported as such, later in the same row, or in a value as a refused byte; no assertion fails |
| HttpExecute.HttpParser.ExecuteAll | network/lidig_http_session.cpp:149-162 | a session that hands over data as it arrives ends as one call on all of it: same parser, bytes read, error and joined callbacks; on an error everything that call tells is told, and beyond that at most the beginning of data it never tells; unless the header overflows or data is left when another protocol begins |
| HttpChunks.BodyRun | util/http_parser.cpp:1989-2109 | the events and the final state of a chunked body, chunk after chunk |
| HttpChunks.ChunkedBodyDecodes | util/http_parser.cpp:1989-2109 | for every list of chunks, with extensions, cut into calls in any way: no error, the body callbacks add up to the payloads, exactly one message ends, all of the text is read |
| HttpChunks.ChunkSizeExact | util/http_parser.cpp:1989-2040 | a chunk size is taken if and only if every byte of it is a hexadecimal digit or from 0x80 on, the latter read as 0, and the number is at most 2^64 - 17; otherwise the error is that of the first other byte or of the number before it |
| HttpChunks.SizeReadIsDenoted | util/http_parser.cpp:224-233 | the number read is the one the hexadecimal digits denote if and only if no digit but 0 stands before a byte from 0x80 on |
| HttpChunks.HexSizeExact | util/http_parser.cpp:1989-2040 | a size of hexadecimal digits alone is read exactly up to 2^64 - 17 and refused above |
| HttpChunks.HighBytesAreZeros | util/http_parser.cpp:1994-2016 | a size line of the one byte 0xFF ends the body, and 5 followed by the byte 0x80 is a size of 80 |
| HttpLengths.ContentLengthExact | util/http_parser.cpp:1391-1575 | a Content-Length, its name in any case, with blanks and folded lines before the number, spaces after it, either line end and folded lines after that, is read exactly up to 2^64 - 7 and refused above |
| HttpLengths.FixedBodyDecodes | util/http_parser.cpp:1937-1987 | a body of known length, cut in any way, is told whole and ends exactly one message |
| HttpTrailers.TrailedCall | util/http_parser.cpp:1204-2109 | a chunked body with any trailer fields but a Content-Length is read whole, its fields are told and its message ends |
| HttpTrailers.ReceiveChunks | network/lidig_http_session.cpp:149-162 | a session that receives such a body in any pieces: no error, all of it read, the body callbacks add up to the payloads, exactly one message ends |
| HttpTrailers.ReceiveFixed | network/lidig_http_session.cpp:149-162 | the same for a body of known length |
| HttpNames.TokenIsStandard | util/http_parser.cpp:185-221 | the table of tokens has exactly the characters of section 3.2.6 of RFC 7230, letters in lower case |
| HttpNames.NameLetter | util/http_parser.cpp:1254-1389 | letter by letter the header state is the one of the word, in any case, that the letters so far begin, and General for all others |
| HttpNames.LongerNamesCount | util/http_parser.cpp:1343-1356 | a transfer coding is noted after every name that begins with Transfer-Encoding, and its value looked at after that name alone |
| HttpOptions.ItemsAreList | util/http_parser.cpp:1576-1695 | every value is the text of its items, the parts between its commas with the blanks around them |
| HttpOptions.ListIsItems | util/http_parser.cpp:1576-1695 | and every list of items is what its text is taken apart into |
| HttpOptions.ListRead | util/http_parser.cpp:1391-1735 | after any such value, keep-alive, close and upgrade are noted exactly if an option that is heard says so, and chunked exactly if the last coding is heard and says so, in any case |
| HttpOptions.AllHeard | util/http_parser.cpp:1576-1695 | an option is heard if none before it loses its comma and none up to it derails |
| HttpOptions.SwallowedComma | util/http_parser.cpp:1576-1695 | `gzip, chunked` ends in chunked, `chunked, gzip` does not, and to the parser `c, chunked` does not |
| HttpHeads.FieldRuns | util/http_parser.cpp:1204-1791 | a field with any name, and any value on one line or none, is told as it was written, and notes a coding, the chunked coding, keep-alive, close, upgrade, or a length exactly if it says so |
| HttpHeads.FieldsRun | util/http_parser.cpp:1204-1791 | the same for any list of fields, one after another |
| HttpStarts.NextGuess | util/http_parser.cpp:969-1020 | for each of the methods, the guess after some letters of its name is kept or replaced by the next letter as the name asks |
| HttpStarts.MethodRuns | util/http_parser.cpp:925-1020 | the letters of a method's name lead to that method |
| HttpStarts.RequestLineRuns | util/http_parser.cpp:925-1203 | a request line is read as it was written: the method, the URL told whole, and the version, with any spaces between and either line end |
| HttpStarts.StatusLineRuns | util/http_parser.cpp:767-923 | a status line is read as it was written: the version, the code up to 999 and the reason phrase told whole, if there is one |
| HttpStarts.EitherRequest | util/http_parser.cpp:728-765 | a parser for both kinds reads a request as one made for requests does |
| HttpStarts.EitherResponse | util/http_parser.cpp:728-765 | and a response as one made for responses does |
| HttpMessages.FieldsThenEnd | util/http_parser.cpp:1204-1828 | after all the fields and the empty line the parser knows of codings, chunks, length, keep-alive, close and upgrade exactly what some field says |
| HttpMessages.NextState | util/http_parser.cpp:2153-2197 | the state after a message: a new one may start if the version and the fields let the connection go on, and none otherwise |
| HttpMessages.MessageRuns | util/http_parser.cpp:1793-2109 | from the first line on, the body is what the fields say: chunks, as many bytes as the length, all up to the end of the connection, or none; the parser stops after it exactly if another protocol follows |
| HttpMessages.RequestRead | util/http_parser.cpp:641-2148 | a whole request in one call: no error, all of it read, the beginning, the URL, the fields, their end, the body and its end told once each, method and version those written; it stops exactly after CONNECT or an upgrade |
| HttpMessages.ResponseRead | util/http_parser.cpp:641-2148 | the same for a response with its code, a body up to the end of the connection left open; it stops exactly after an upgrade with status 101 |
| HttpMessages.BothRefused | util/http_parser.cpp:1805-1818 | a request with a coding and a length is refused where its fields end, and nothing of its body is told, but for a lenient parser without chunks |
| HttpMessages.CodingRefused | util/http_parser.cpp:1892-1904 | a request with a coding whose last is not chunked is refused by a strict parser once the end of its fields is told |
| HttpMessages.ReceiveRequest | network/lidig_http_session.cpp:149-162 | a session that receives a request in any pieces: no call fails, all of it is read; the beginning, the fields' end and the message's end are told once each, with the URL and the body that were sent |
| HttpMessages.ReceiveResponse | network/lidig_http_session.cpp:149-162 | the same for a response, up to the end of the connection |
| HttpConversations.RequestsRead | util/http_parser.cpp:925-964 | any number of requests, one right after another, are told one after another, each as it was sent, whatever the earlier ones left in the parser |
| HttpConversations.OtherProtocol | util/http_parser.cpp:1875-1883 | after CONNECT or an upgrade the call stops right after the request, and the data that follows is left |
| HttpConversations.NothingMore | util/http_parser.cpp:716-726 | after a request that ends the connection, the first byte that is no line end is an error, and nothing more is told |
| HttpConversations.ReceiveRequests | network/lidig_http_session.cpp:149-162 | a session that receives any number of requests in any pieces is told all of them in order, and no call fails |
| HttpFields.RestIsDelimiters | util/http_parser.cpp:494-639 | every byte of a well-formed URL that is in no field is one of `:/?#@[]` |
| HttpCompose.FieldsSplit | util/http_parser.cpp:2416-2536 | in a text written from parts every byte belongs to the part that it was written for, and the marks between to none |
| HttpCompose.FieldSpan | util/http_parser.cpp:2247-2408 | each field's bytes are its part, in its place |
| HttpCompose.WrittenIsWellFormed | util/http_parser.cpp:2416-2536 | a text written from proper parts is accepted by both automata |
| HttpCompose.WellFormedIsWritten | util/http_parser.cpp:2416-2536 | the URLs that both automata accept are exactly the texts written from proper parts |
| HttpUrl.Url.SplitOuter | util/http_parser.cpp:2432-2488 | accepts as the first automaton does, and each field is exactly the bytes it assigns to it |
| HttpUrl.Url.HostLoop | util/http_parser.cpp:2341-2390 | host, port and user info are exactly the bytes the second automaton assigns to them |
| HttpUrl.Url.ParseHost | util/http_parser.cpp:2329-2408 | succeeds exactly when the host automaton ends in an accepting state; the other fields stay |
| HttpUrl.Url.ReadPort | util/http_parser.cpp:2507-2532 | succeeds exactly on numbers up to 65535, and stores the value of the digits |
| HttpUrl.Url.Parse | util/http_parser.cpp:2416-2536 | succeeds exactly on the texts `schema://userinfo@host:port/path?query#fragment` written from proper parts, with a port of at most 65535; each field set is then exactly its part, and those left out are not set; the fields are pairwise disjoint, and all bytes outside them are delimiters |
| Sha1.NextWord | util/sha.cpp:49-52 | the circular block always gives the next word of the 80-word schedule |
| Sha1.NextHolds | util/sha.cpp:66-71 | storing that word drops only a word that is not needed again |
| Sha1.KIsRoot | util/sha.cpp:59-95 | the constants of the steps are the integer parts of 2^30 times the square roots of 2, 3, 5 and 10 |
| Sha1.ChooseIs | util/sha.cpp:59-71 | the rewritten first function is the textbook one |
| Sha1.MajorityIs | util/sha.cpp:82-87 | the rewritten third function is the textbook one |
| Sha1.R0 | util/sha.cpp:59-63 | one textbook step on a word still in place, with the names rotated |
| Sha1.R1 | util/sha.cpp:66-71 | one textbook step that also replaces its word in the block |
| Sha1.R2 | util/sha.cpp:74-79 | the same for steps 20 to 39 |
| Sha1.R3 | util/sha.cpp:82-87 | the same for steps 40 to 59 |
| Sha1.R4 | util/sha.cpp:90-95 | the same for steps 60 to 79 |
| Sha1.Transform | util/sha.cpp:102-202 | the digest becomes what the 80-word method of section 6.1 of RFC 3174 makes of it |
| Sha1Stream.BufferToBlock | util/sha.cpp:205-216 | the sixteen big-endian words of the buffer |
| Sha1Stream.BitCount | util/sha.cpp:273-274 | the 64-bit total is the message's bit count modulo 2^64 |
| Sha1Stream.InitialOctets | util/sha.cpp:28-40 | the words of a fresh start, low-order octet first, are the octets 01 23 45 67 89 AB CD EF, then the same backwards from FE, then F0 E1 D2 C3, which makes them those of section 6.1 of RFC 3174 |
| Sha1Stream.OneBlock | util/sha.cpp:276-299 | up to 55 pending octets one more block completes the padded message |
| Sha1Stream.TwoBlocks | util/sha.cpp:284-299 | otherwise two blocks do |
| Sha1Stream.SHA1.Update | util/sha.cpp:225-248 | the octets join those fed before, however the message is cut |
| Sha1Stream.SHA1.PadAndTransform | util/sha.cpp:273-299 | the digest becomes the fold over the message padded as in section 4 of RFC 3174 |
| Sha1Stream.SHA1.FinalBin | util/sha.cpp:271-315 | the digest of all octets fed since the last reset, and a fresh start |
| Md5.CountAdds | util/md5.cpp:24-27 | the two-word addition with its carry adds 8 times the length modulo 2^64 |
| Md5.FillerLength | util/md5.cpp:48-51 | the padding taken from the constant is that of section 3.1 of RFC 1321 |
| Md5.InitialBytes | util/md5.cpp:9-17 | the words of a fresh start, low-order byte first, are the bytes 01 23 45 67 and so on of section 3.3 of RFC 1321 |
| Md5.LengthBytes | util/md5.cpp:49-52 | the encoded count words are the 64-bit length of section 3.2 |
| Md5.Context.AddCount | util/md5.cpp:24-27 | the count words are the bit count modulo 2^64 |
| Md5.Context.TakeBlocks | util/md5.cpp:29-36 | the state is the fold over all whole blocks fed, the first completed from the buffer |
| Md5.Context.Update | util/md5.cpp:19-42 | the bytes join those fed before, however the message is cut |
| Md5.Context.Final | util/md5.cpp:44-54 | the digest of all bytes fed; the padding stays behind in the context |
| Md5.Context.Encode | util/md5.cpp:56-68 | the words in little-endian octets |
| Crc16.Crc | include/util/lidig_crc.h:15-32 | the nested loops compute the specified register |
| Crc16.RunLinear | include/util/lidig_crc.h:15-32 | the difference of two CRCs is the CRC of the differences |
| Crc16.BurstDetected | include/util/lidig_crc.h:15-32 | with bit 15 of the multinomial set, a change within two adjacent octets always changes the CRC |
| Crc16.BurstMissed | include/util/lidig_crc.h:15-32 | without it, some such change goes unseen in every message |
| Crc16.ResidueIsZero | include/util/lidig_crc.h:15-32 | for every multinomial, a message followed by its CRC, low octet first, has CRC 0 |
| Base64.EncodingLength | include/util/base64.h:4 | the encoding has 4 * ceil(n / 3) characters |
| Base64.LetterInTable | util/base64.cpp:10-19 | the character of a value stands in its place in the alphabet of table 1 of RFC 4648 |
| Base64.ValueIsPlace | util/base64.cpp:22-70 | a character is decoded to its place in that alphabet, and refused if it has none |
| Base64.EmittedIsSixes | util/base64.cpp:82-102 | the octet-by-octet form emits the four values of every three octets of section 4 of RFC 4648 |
| Base64.OctetsOfSixes | util/base64.cpp:135-168 | regrouping octets into values and back is the identity |
| Base64.Encode | util/base64.cpp:73-119 | returns the number of characters modulo 2^32; if that does not wrap, has written the encoding and a NUL, and nothing beyond |
| Base64.Decode | util/base64.cpp:122-170 | gives 0 exactly for bad lengths and characters, else writes the octets of the characters before the padding, never past the declared size |
| Base64.RoundTrip | util/base64.cpp:73-170 | the characters before the padding of an encoding stand for the message |
| Base64.EncodeThenDecode | util/base64.cpp:73-170 | encoding a message into a buffer of the declared size and decoding the characters returns the message |

## Left out

- Ring: swaps of a stale index that go through while their guard fails (`RingBuffer.GuardHolds`; then the ring is no longer safe), weak memory orders, and any channel state but RUNNING; CleanChannels, recovery of shared memory and hot update.
- Ring: what a record's text is made of. A producer writes any text piece by piece, cut to the record's size; a log entry of lower priority or another category than configured is not begun. The retry delays are steps of other threads.
- RingTheorems.AsyncInOrder: is about async mode; with several consumers in sync mode, records are claimed in hold order but the dispatches of two consumers may interleave.
- JsonValue.Trichotomy: doubles are real numbers here, so NaN, which is neither less than, equal to nor greater than anything, is not covered; nor is it by the other laws of the order.
- JSON comments are recognised and skipped but not attached to values; value offsets, error messages and what the reader recovers after an error are not modelled.
- JSON doubles are reals; their printing and reading are parameters, which the round trip assumes to agree on the doubles of the value; special floats, single quotes, numeric keys, dropped nulls, strict mode, precision settings and raw UTF-8 output are off, as the library sets them.
- JSON sparse arrays made by indexing, static and duplicated keys, the older Reader, FastWriter and StyledWriter, and Path.
- JsonReader.Reader.RecoverFromError: states only that the cursor stays valid, since a failed parse promises no value.
- JsonLibrary.StringToValue: does not say what part of a document is in the root that the code returns after it has reported an error.
- HTTP callbacks return 0 and leave the parser alone; pausing, failing callbacks and non-strict builds are not modelled. The stop for another protocol is. Of the session layer only the sequence of calls is.
- HttpExecute.HttpParser.Execute: for calls of at most 2^32 - 1 - 80 KiB bytes, as the header count has 32 bits. After a failing call it does not say what is in the parser's fields besides the error, since every later call returns at once. When a header value overflows, which of the listed reports is made depends on what follows in the same call and is left open.
- HttpExecute.HttpParser.ExecuteAll: says nothing of a header that overflows, nor of a session that goes on after another protocol has begun.
- HttpTrailers.TrailedCall: leaves out trailer fields without a value, with a folded value, or named Content-Length, and does not say what flags the fields leave behind.
- HttpExecute.HttpParser.TakeValue: when the value overflows, leaves open which of the listed reports is made, as `Execute` does.
- HttpMessages.RequestRead: leaves out values that are folded after they have begun, a second Content-Length, bytes of lenient mode within lists of codings or options, line ends before the first line, a request line without a version or with another protocol's name, and headers beyond 80 KiB. All of these are in `Byte`, and covered by `Execute` and `CutIndependence`.
- HttpMessages.ResponseRead: the same; and it leaves out that a callback may ask for no body, as for the answer to HEAD.
- HttpCut.CutIndependence: is about calls with data; a call without data is the end of the connection, which `Execute` states separately.
- HttpUrl.Url.Parse: for buffers of at most 65535 bytes, since offsets and lengths have 16 bits.
- HttpHeads.FieldRuns: is about a value on one line; a Content-Length that is no number, or more than 2^64 - 7, is refused (`ContentLengthExact`).
- SHA-1 in hexadecimal (`final`), from a file, and the one-call helpers; SHA1::update on a stream is modelled on the octets it delivers.
- MD5Transform and MD5Decode: the 64 steps are a parameter, a function of the state and the block.
- Md5.Context.Update: each call has less than 2^32 - 64 bytes, beyond which the code's 32-bit loop index wraps.
- Crc16.Crc: data of less than 2^32 bytes, as the code's 32-bit counter would never reach more.
- Base64.Encode: what is in the buffer after the count of characters has wrapped past 2^32. Shifts and ors of disjoint bits are written as products and sums.
- All input and output: libuv, sockets, files, MQTT, AMQP, Modbus, UART, sqlite, UCI, the applications and the web pages.
