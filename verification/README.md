# Verified models of the lsf server framework

The framework builds game and data servers: services exchange protobuf messages, keep sessions, and
carry two vendored engines, a JSON library and an embedded HTTP server. This project models the parts
whose correctness is not evident from reading one function, and proves what they are for.

| file | what it models |
|---|---|
| JsonText, JsonNumber, JsonLexer, JsonParser, JsonRoundTrip | the JSON printer, the scanner automaton, the parser, and that they undo each other |
| JsonGrammar, JsonLayout | which texts the parser accepts and with which values; what printed text looks like |
| BlockStream, Sha1, Md5, Sha1Vector, Md5Vector | the two digests with their incremental contexts, against the plain definitions of RFC 3174 and RFC 1321 and a test vector of each |
| Mbufs, HttpChunk, WebSocket, WebSocketWire | the growable buffer, chunked bodies collapsed in place, WebSocket frames, sender against receiver and against the RFC |
| FrozenTokens, FrozenDocuments, FrozenPath | the tokenizer with its flat token array, the documents it accepts, and the path lookup over it |
| Glob, GlobMeaning, Base64 | the glob matcher, what its patterns mean, and the base64 coders |
| Combination | the enumeration of k-subsets |
| CurlThreads, CurlProgress | the thread pool as an interleaving of atomic steps, and that it can always finish |
| SessionMachine, SessionReplies, SessionHandler | the session state machine, what its replies say, and the methods that update a session |
| WordsFilters | the words filter |
| Managers, ClientConns | the snapshot of a manager in shared memory, and the user index of client connections |
| Common, Numerals, Utf8 | what several of them share |

Code that updates fields or buffers in place is a class or a method with loops, proved equal to a
function of the old state; the theorems are lemmas about those functions. A recursive function that
states what the text or the bytes mean stands beside each automaton, walk or in-place loop.

Some things the proofs brought out:

- `escape_string` writes through `sprintf` and then restores the byte after each `\u` escape; when the
  last character needs that form, the byte it overwrites is the string's own terminator.
- `get_string` of the JSON parser steps over one character too many behind a surrogate pair: the character
  after it is lost, or an escape after it loses its backslash; behind an escaped backslash scanner and
  decoder no longer agree on what the escapes are. A string with one pair, and no escaped backslash right
  behind it, is read as meant exactly when nothing follows the pair, or an escaped quote or slash does.
- The JSON parser takes a null character for the end of its input, so that anything may follow it, and the
  control characters from 0x10 on unescaped in strings.
- `cs_sha1_update` compares in 32 bits; the comparison is right exactly when the sum does not wrap. With
  63 bytes pending a length of 2^32 - 1 wraps, and the copy runs past the block.
- `MD5_Update` counts only the low 32 bits of a length, so a single update of 4 GiB is not counted; the
  padding is right exactly when the high halves of all lengths add up to a multiple of 2^29.
- A WebSocket payload of 65535 bytes is sent with the 64-bit length, one later than the minimal form
  of section 5.2 of RFC 6455; the receiver reads it all the same.
- `mg_match_prefix` with alternatives moves on from one that matches with length zero as from one that
  does not match: `$|b` on the empty string is reported as no match. Only the last alternative's empty
  match counts, so a result that is not negative means a positive match or that.
- A handle added to the curl pool while its callback is still in the map, which includes adding it from
  that very callback, costs one of the two callbacks; where none is null, order and completeness hold exactly without that.
- The default `OnClientRequest` asks for user data, which `OnDBSvrQueryMessage` refuses as an unknown
  type: only robot data is ever answered. A handler that goes straight to an update can still have
  records that were never asked for shown to query-success.
- A server that asked is never told that the database or another server failed or timed out, and a client
  never that curl timed out: it gets its reply without an error.
- The tokenizer of `parse_json` takes commas between elements as optional and one before the closing
  bracket, and a closing quote only when it is not the last byte of the text.
- `AddQueryDataAndLock` marks the last handle, which is the wrong one when the record was already
  there; an update whose record is empty or of an unknown type gives up its lock id without sending it.
- A connection created under an id already in use leaves a stale or a double pair in the user index.
- `Init` of a manager reads the key of an element it has just moved from; the model takes the move as
  a copy, which it is for messages without a move constructor.

## Model

| member | source | states |
|---|---|---|
| `JsonText.EscapeString` | dev/svr/3rd/json.hpp:4616-4709 | the escaper fills its pre-sized buffer exactly with the escaped text; the terminator survives exactly when the string is empty or its last character is not written in the \u form |
| `JsonText.EscapeOfControl` | dev/svr/3rd/json.hpp:4690-4705 | the string of one control character loses its terminator |
| `JsonText.PutChar` | dev/svr/3rd/json.hpp:4628-4706 | one turn of the escaper appends exactly the escape of one character at the write position and leaves the cells after it as they were prefilled |
| `JsonText.ExtraSpaceLoop` | dev/svr/3rd/json.hpp:4567-4601 | the size pass counts what the escapes of all characters add |
| `JsonText.DumpTo` | dev/svr/3rd/json.hpp:4728-4853 | the recursive printer appends exactly the text of the value in the given style and indentation |
| `JsonText.DumpObjectTo` | dev/svr/3rd/json.hpp:4736-4774 | its object branch, with separators and nested indentation |
| `JsonText.DumpArrayTo` | dev/svr/3rd/json.hpp:4776-4812 | its array branch |
| `JsonNumber.AcceptsExactlyNumbers` | dev/svr/3rd/json.hpp:6543-6691 | the number states of the scanner accept exactly the grammar of section 6 of RFC 7159, for every text |
| `JsonNumber.NumberExamples` | dev/svr/3rd/json.hpp:6543-6691 | a number with all parts and two with as few as possible are numbers; NotNumbers gives five texts that are none |
| `JsonLexer.LongestIs` | dev/svr/3rd/json.hpp:6315-6324 | the last accepting position the automaton saw is the end of the longest number at that place |
| `JsonLexer.NumberToken` | dev/svr/3rd/json.hpp:6234-6277 | maximal munch: the token is the longest prefix that is a number, and a parse error exactly when no non-empty prefix is one |
| `JsonLexer.Lexer.ScanNumber` | dev/svr/3rd/json.hpp:6543-6691 | the goto automaton with its marker, on the cursor fields, returns the longest number or a one-character parse error |
| `JsonLexer.Lexer.ScanString` | dev/svr/3rd/json.hpp:6278-6542 | the string states consume up to the closing quote exactly when every character and escape before it is allowed, else fall back to the marker |
| `JsonLexer.Lexer.ScanLiteral` | dev/svr/3rd/json.hpp:6692-6741 | true, false and null, falling back to the marker on a mismatch |
| `JsonLexer.Lexer.Scan` | dev/svr/3rd/json.hpp:5983-6745 | every call moves the cursor over white space and exactly one token, and classifies it |
| `JsonLexer.Lexer.GetString` | dev/svr/3rd/json.hpp:6799-6900 | the decoding loop over the token body, with its jump behind a surrogate pair, gives the text that Unescape reads there, or the exception; what Unescape is, JsonGrammar says piece by piece |
| `JsonLexer.FourDigits` | dev/svr/3rd/json.hpp:6861-6862 | strtoul on the four characters of an escape, with its blanks, signs and prefix, reads four digits by their places |
| `JsonLexer.ToUnicodeDecodes` | dev/svr/3rd/json.hpp:5873-5934 | the bytes written for any code point up to 0x10FFFF are decoded by the rules of RFC 3629 to that code point, and exactly those bytes, whatever follows |
| `JsonLexer.AstralIs` | dev/svr/3rd/json.hpp:5881-5896 | a high and a low surrogate stand for the code point section 3 of RFC 2781 gives them, from 0x10000 on |
| `JsonParser.Parser.ParseInternal` | dev/svr/3rd/json.hpp:6984-7197 | the recursive descent over last_token and the lexer returns the value, or fails, as the grammar function says |
| `JsonParser.Parser.ParsePairs` | dev/svr/3rd/json.hpp:7016-7059 | the loop over members: every key replaces an earlier equal one, and the closing brace is demanded |
| `JsonParser.Parser.ParseElements` | dev/svr/3rd/json.hpp:7094-7114 | the loop over elements and the closing bracket |
| `JsonParser.Parse` | dev/svr/3rd/json.hpp:6971-6980 | a text is one value followed by the end of input, and nothing else is accepted; which texts these are, and with which values, JsonGrammar.AcceptsExactly says |
| `JsonGrammar.DocReads` | dev/svr/3rd/json.hpp:6984-7197 | every document of RFC 7159, with white space at every place where it may stand, every escape in every spelling and numbers in every form, is parsed where it stands as what it means |
| `JsonGrammar.ParsedIsWritten` | dev/svr/3rd/json.hpp:6984-7197 | every value accepted at a token is such a document written there, with that meaning |
| `JsonGrammar.TextIsAccepted` | dev/svr/3rd/json.hpp:6971-6980 | any document between white space, up to the end of the text or its first null character, is accepted as what it means |
| `JsonGrammar.AcceptsExactly` | dev/svr/3rd/json.hpp:6971-6980 | a text is accepted with a value if and only if it is a document with that meaning between white space, up to its end or its first null character; the meaning is that of RFC 7159 except right behind a surrogate pair, where it is what the decoder makes of the text |
| `JsonGrammar.BodyReads` | dev/svr/3rd/json.hpp:6799-6900 | any run of characters and escapes before a quote ends there and decodes to the bytes of its pieces, in order |
| `JsonGrammar.EscapedCodePoint` | dev/svr/3rd/json.hpp:6858-6886 | the text of one \u escape, its digits in either case, is the string of the UTF-8 bytes of that code point, for each one that is no high surrogate |
| `JsonGrammar.EscapedPair` | dev/svr/3rd/json.hpp:6864-6880 | the text of a surrogate pair is the string of the UTF-8 bytes of the code point it stands for, for every one from 0x10000 on |
| `JsonGrammar.EscapedLetters` | dev/svr/3rd/json.hpp:6816-6855 | the eight letters after a backslash stand for the characters section 7 of RFC 7159 gives them |
| `JsonGrammar.ReadAsMeantExactly` | dev/svr/3rd/json.hpp:6876-6878 | a string with one surrogate pair and no escaped backslash right behind it is read as RFC 7159 means it if and only if the pair ends it or an escaped quote or slash follows |
| `JsonGrammar.LetterLost` | dev/svr/3rd/json.hpp:6876-6878 | a clef written as a pair and then an x is read as the clef alone |
| `JsonLayout.DumpLayout` | dev/svr/3rd/json.hpp:4728-4853 | with an indent, the text is the lines of the value, one for every element, member and bracket, each indented by its depth times the step in 32 bits; without one, the same without line ends and blanks |
| `JsonLayout.EscapeTable` | dev/svr/3rd/json.hpp:4616-4709 | exactly the quote, the backslash and the characters below the blank are escaped: seven by a letter, the others by four digits in lower case |
| `JsonLayout.KeyLessIs` | dev/svr/3rd/json.hpp:7050-7053 | keys are ordered at the first place where they differ, or the shorter first |
| `JsonRoundTrip.EscapedBody` | dev/svr/3rd/json.hpp:4616-4709 | after any escaped byte string and a quote, the scanner finds exactly that end, and decoding gives the string back |
| `JsonRoundTrip.StringRoundTrip` | dev/svr/3rd/json.hpp:6799-6900 | quote, escaped text, quote is one string token for every byte string, and its value is the string (section 7 of RFC 7159) |
| `JsonRoundTrip.IntegerRoundTrip` | dev/svr/3rd/json.hpp:7154-7182 | every 64-bit integer is printed as one number token that converts back exactly |
| `JsonRoundTrip.ValueRoundTrip` | dev/svr/3rd/json.hpp:6984-7197 | inside any text, the dump of any float-free value in any style is parsed back to it, and the next token is the one after it |
| `JsonRoundTrip.RoundTrip` | dev/svr/3rd/json.hpp:4728-4853 | parsing the dumped text returns the value: every float-free value, every indent, compact or pretty |
| `JsonRoundTrip.InsertKeepsOrder` | dev/svr/3rd/json.hpp:7050-7053 | writing a key keeps the members sorted and unique, and the last write of a key wins |
| `JsonRoundTrip.ParsedIsHealthy` | dev/svr/3rd/json.hpp:6984-7197 | whatever text is accepted, floats or not, every object of the value read lists its keys sorted and once, and every integer is of 64 bits |
| `JsonRoundTrip.HealthyIsStorable` | dev/svr/3rd/json.hpp:7050-7053 | a parsed value without floats is one the round trip covers |
| `JsonRoundTrip.RedumpStable` | dev/svr/3rd/json.hpp:6971-6980 | accepted float-free text can be dumped in any style and read back to the same value |
| `Sha1.PackIsValue` | dev/svr/3rd/mongoose.c:230-237 | the word of four bytes is the number they are in network byte order |
| `Sha1.Rol30Undone` | dev/svr/3rd/mongoose.c:228 | rotating by 30 loses no bit: rotating on by 2 undoes it; likewise for the other rotations |
| `Sha1.RotationsOfOne` | dev/svr/3rd/mongoose.c:228 | each rotation moves the lowest bit up by its distance |
| `Sha1.ChooseRewritten` | dev/svr/3rd/mongoose.c:251-253 | the rewritten choose formula is the one of section 5 of RFC 3174 for all words |
| `Sha1.MajorityRewritten` | dev/svr/3rd/mongoose.c:260-262 | the rewritten majority formula is the standard one for all words |
| `Sha1.Blk` | dev/svr/3rd/mongoose.c:247-250 | overwriting one word of the circular 16-word schedule yields the i-th word of the 80-word schedule |
| `Sha1.R` | dev/svr/3rd/mongoose.c:251-265 | one round macro computes the next word of the recurrence and rotates one register |
| `Sha1.FiveRounds` | dev/svr/3rd/mongoose.c:277-356 | five macro uses with rotating register names are five rounds of section 6.1 |
| `Sha1.Transform` | dev/svr/3rd/mongoose.c:267-371 | the block function equals the plain 80-word definition for every state and block |
| `Sha1.Context.UpdateBlocks` | dev/svr/3rd/mongoose.c:389-395 | the block branch leaves the chaining value of all whole blocks seen so far |
| `Sha1.Context.Update` | dev/svr/3rd/mongoose.c:382-399 | for every 32-bit length: the copies stay in the buffer exactly when j + len does not wrap, and then the context stands for the old message followed by the new bytes: chaining value, residue and 64-bit bit count |
| `Sha1.UpdateBranchExact` | dev/svr/3rd/mongoose.c:389 | the guard of the update, computed in 32 bits, is right when j + len does not wrap, and only then does the short copy fit the buffer |
| `Sha1.WrappingPieces` | dev/svr/3rd/mongoose.c:389 | 63 bytes and then 2^32 - 1 more: the guard takes the second piece for one that fits |
| `Sha1.Context.PadOut` | dev/svr/3rd/mongoose.c:405-416 | the marker, one zero byte at a time and the count extend the message by exactly the standard padding (section 4 of RFC 3174) |
| `Sha1.PadLength` | dev/svr/3rd/mongoose.c:410-416 | the padding fills whole blocks and adds at most one block beyond the message and its count |
| `Sha1.Context.Final` | dev/svr/3rd/mongoose.c:401-423 | the digest written is that of the whole message: its words, read in network byte order, are the five registers of the chaining value of the padded message; and the context is erased |
| `Sha1.DigestWords` | dev/svr/3rd/mongoose.c:417-420 | word k of the twenty bytes, read in network byte order, is register k |
| `Sha1Vector.DigestOfAbc` | dev/svr/3rd/mongoose.c:267-423 | the digest of "abc" is a9993e36 4706816a ba3e2571 7850c26c 9cd0d89d, the test vector of section 7.3 of RFC 3174 |
| `Sha1.HashPieces` | dev/svr/3rd/mongoose.c:382-423 | for any pieces of 32-bit length, the updates stay in bounds exactly when each length and the bytes pending before it stay below 2^32 together, and then the digest is the one-shot digest |
| `Md5.SourceIndexIsFormula` | dev/svr/3rd/mongoose.c:532-598 | the word numbers written in the 64 step lines follow the formula of section 3.4 of RFC 1321 |
| `Md5.SourceFunctionIsAuxiliary` | dev/svr/3rd/mongoose.c:502-505 | the rewritten auxiliary functions are F, G, H and I of the standard for all words |
| `Md5.Step` | dev/svr/3rd/mongoose.c:507-508 | one MD5STEP line computes one operation of the standard |
| `Md5.FourSteps` | dev/svr/3rd/mongoose.c:532-598 | four step lines with rotating registers are four operations |
| `Md5.Transform` | dev/svr/3rd/mongoose.c:524-604 | the block function equals the 64-operation definition for every state and block |
| `Md5.Context.TakeBlocks` | dev/svr/3rd/mongoose.c:630-636 | the loop over whole blocks leaves the chaining value of all of them |
| `Md5.Context.Update` | dev/svr/3rd/mongoose.c:606-639 | the context stands for the old message followed by the new bytes; only the low 32 bits of the length are counted |
| `Md5.Context.Final` | dev/svr/3rd/mongoose.c:641-669 | the digest is that of the message padded with the count kept (sections 3.1 and 3.2 of RFC 1321), and the context is erased |
| `Md5.WordIsValue` | dev/svr/3rd/mongoose.c:630-636 | word i of a block is the number its four bytes are, low byte first |
| `Md5.RolTurns` | dev/svr/3rd/mongoose.c:507-508 | rotating left by s moves the lowest bit up by s, and is undone by rotating left by the rest of 32 |
| `Md5.DigestWords` | dev/svr/3rd/mongoose.c:665-667 | word k of the sixteen bytes, read low byte first, is register k |
| `Md5Vector.DigestOfAbc` | dev/svr/3rd/mongoose.c:524-669 | the digest of "abc" is 90015098 3cd24fb0 d6963f7d 28e17f72, the test vector of section A.5 of RFC 1321 |
| `Md5.Context.Spill` | dev/svr/3rd/mongoose.c:650-657 | padding that does not fit absorbs the marked block and then the count block |
| `Md5.HashPieces` | dev/svr/3rd/mongoose.c:606-669 | for any pieces of any size_t length the digest is that of the whole message padded with the count kept, the sum of the low 32 bits of the lengths |
| `Md5.PaddedRightExactly` | dev/svr/3rd/mongoose.c:606-669 | for any pieces, that padding is the one of RFC 1321 exactly when the high halves of the lengths add up to a multiple of 2^29 |
| `Md5.CountedExactly` | dev/svr/3rd/mongoose.c:610-611 | a count that leaves out some multiples of 2^32 bytes is right modulo 2^64 bits exactly when it left out a multiple of 2^29 of them |
| `Md5.HashFourGibibytes` | dev/svr/3rd/mongoose.c:606-669 | a context updated once with 4 GiB has its counter at zero and pads the message as an empty one, which is not its padding |
| `Md5.FourGibibytesMiscounted` | dev/svr/3rd/mongoose.c:610-611 | the counter update adds nothing for 4 GiB, and the padding it leads to is wrong |
| `BlockStream.AbsorbConcat` | dev/svr/3rd/mongoose.c:392-394 | folding the block function over a concatenation is folding it over the parts, for whole blocks |
| `BlockStream.AddBitsCounts` | dev/svr/3rd/mongoose.c:386-387 | the pair of 32-bit counters counts bits modulo 2^64 |
| `BlockStream.BlockPosition` | dev/svr/3rd/mongoose.c:388 | the position in the pending block can be read off the low counter |
| `BlockStream.BytesMakeCount` | dev/svr/3rd/mongoose.c:406-409 | the eight bytes of a count determine it |
| `Mbufs.Mbuf.Append` | dev/svr/3rd/mongoose.c:163-197 | the contents grow by exactly the bytes appended, whether or not the buffer had to be moved |
| `Mbufs.Mbuf.Remove` | dev/svr/3rd/mongoose.c:199-204 | the first n bytes go, and nothing goes when there are fewer |
| `HttpChunk.ScanChunk` | dev/svr/3rd/mongoose.c:4200-4231 | the scan reports a complete chunk, an incomplete one or an overrun exactly as the text says |
| `HttpChunk.Connection.TakeChunk` | dev/svr/3rd/mongoose.c:4255-4258 | moving a chunk down extends the body by exactly its data and spares what follows the chunk |
| `HttpChunk.Connection.Traverse` | dev/svr/3rd/mongoose.c:4253-4265 | the collapsing loop computes, in place, the fold over all complete chunks up to the zero chunk |
| `HttpChunk.Connection.HandleChunked` | dev/svr/3rd/mongoose.c:4233-4293 | after the call the buffer is the concatenated data of complete chunks, then the unparsed tail; what the handler is shown, and what deleting leaves |
| `HttpChunk.Connection.OnRead` | dev/svr/3rd/mongoose.c:4233-4293 | one read event on the buffer is one step of the receiver that the transfer theorem is about |
| `HttpChunk.SentChunkParses` | dev/svr/3rd/mongoose.c:4854-4862 | a chunk written by the sender is read back as one complete chunk with its data, whatever follows |
| `HttpChunk.SentStreamCollapses` | dev/svr/3rd/mongoose.c:4253-4265 | any sequence of non-empty sent chunks ended by the zero chunk collapses to the concatenated payload |
| `HttpChunk.ParseStable` | dev/svr/3rd/mongoose.c:4200-4231 | a verdict on a chunk does not change when more bytes arrive |
| `HttpChunk.CollapseInPieces` | dev/svr/3rd/mongoose.c:4233-4293 | collapsing what has arrived and then the rest is collapsing everything at once |
| `HttpChunk.CutsDoNotMatter` | dev/svr/3rd/mongoose.c:4233-4293 | wherever the bytes are cut, the final state is that of one pass over all of them |
| `HttpChunk.ChunkedTransfer` | dev/svr/3rd/mongoose.c:4233-4293 | sender and receiver together: any chunks, cut anywhere, end as exactly the concatenated payload (section 4.1 of RFC 7230) |
| `HttpChunk.SizeWraps` | dev/svr/3rd/mongoose.c:4207-4211 | a chunk size is the number its hexadecimal digits denote, modulo 2^64 |
| `HttpChunk.WrittenExactly` | dev/svr/3rd/mongoose.c:4858 | the size written is the hexadecimal numeral of the number of bytes, without a leading zero |
| `HttpChunk.WikiChunks` | dev/svr/3rd/mongoose.c:4854-4862 | two chunks and the last one, byte for byte, with their line ends |
| `WebSocketWire.FirstByte` | dev/svr/3rd/mongoose.c:3998 | the top bit of the first byte is FIN, set unless WEBSOCKET_DONT_FIN is asked for, and its low bits are the opcode |
| `WebSocketWire.FragmentIs` | dev/svr/3rd/mongoose.c:3859-3861 | the frames taken for fragments are those sent without FIN and the continuations |
| `WebSocketWire.LengthWritten` | dev/svr/3rd/mongoose.c:3999-4019 | the second byte holds the mask bit and the length or a mark, and the bytes behind it are the length in network byte order, for every length of 64 bits |
| `WebSocketWire.PayloadWritten` | dev/svr/3rd/mongoose.c:4020-4036 | then comes the key, and octet i of the payload combined with octet i modulo 4 of the key (section 5.3 of RFC 6455) |
| `WebSocketWire.Hello` | dev/svr/3rd/mongoose.c:3993-4049 | the four "Hello" frames of section 5.7 of RFC 6455, byte for byte |
| `WebSocket.MaskingInvolutes` | dev/svr/3rd/mongoose.c:4030-4036 | masking twice with the same key is the identity (section 5.3 of RFC 6455) |
| `WebSocket.Sender.SendHeader` | dev/svr/3rd/mongoose.c:3993-4028 | the bytes appended are the header for that length and key, in any of the three length encodings |
| `WebSocket.Sender.MaskFrame` | dev/svr/3rd/mongoose.c:4030-4036 | exactly the bytes from pos on are masked in place |
| `WebSocket.Sender.SendFrame` | dev/svr/3rd/mongoose.c:4038-4049 | the send buffer grows by exactly the wire form of the frame |
| `WebSocket.Receiver.ReadHeader` | dev/svr/3rd/mongoose.c:3893-3910 | the three length encodings and the completeness test classify the received bytes |
| `WebSocket.Receiver.Unmask` | dev/svr/3rd/mongoose.c:3919-3924 | the in-place loop unmasks exactly the data of the frame |
| `WebSocket.Receiver.Deliver` | dev/svr/3rd/mongoose.c:3876-3960 | one complete frame is handed over with its payload unmasked and removed, anything less changes nothing |
| `WebSocket.Receiver.OnReceive` | dev/svr/3rd/mongoose.c:4094-4097 | the delivery loop ends, and hands over all complete frames in order, keeping the rest |
| `WebSocket.SentFrameParses` | dev/svr/3rd/mongoose.c:3993-4049 | a sent frame, masked or not, is parsed as one whole frame with the payload sent, whatever follows |
| `WebSocket.SentFramesDelivered` | dev/svr/3rd/mongoose.c:4094-4097 | any sequence of sent frames is delivered as exactly the sent payloads |
| `WebSocket.ParseStable` | dev/svr/3rd/mongoose.c:3893-3910 | a complete frame is the same frame when more bytes arrive |
| `WebSocket.DeliverInPieces` | dev/svr/3rd/mongoose.c:4094-4097 | delivering what has arrived and then the rest is delivering everything at once |
| `WebSocket.CutsDoNotMatter` | dev/svr/3rd/mongoose.c:4094-4097 | however the bytes are cut into reads, messages and leftovers are those of one delivery |
| `WebSocket.FramesSurvive` | dev/svr/3rd/mongoose.c:3876-3960 | sender and receiver together: frames and any proper prefix of one more, cut into arbitrary reads, arrive as the sent payload sequence, with the prefix kept |
| `WebSocket.UnfinishedNeedsMore` | dev/svr/3rd/mongoose.c:3893-3910 | any proper prefix of a sent frame asks for more bytes |
| `WebSocket.NotMinimalFor65535` | dev/svr/3rd/mongoose.c:4000-4014 | a payload of 65535 bytes gets the 64-bit length although 16 bits hold it |
| `FrozenTokens.Tokenizer.CapturePtr` | dev/svr/3rd/mongoose.c:1382-1396 | a token is appended, growing the array by doubling when allowed; the too-small error comes exactly when there is no slot |
| `FrozenTokens.Tokenizer.CaptureLen` | dev/svr/3rd/mongoose.c:1398-1404 | only the token named gets its length and the number of tokens after it |
| `FrozenTokens.Tokenizer.ParseString` | dev/svr/3rd/mongoose.c:1428-1447 | a string token up to its closing quote, with the error code of the first offence |
| `FrozenTokens.Tokenizer.ParseNumber` | dev/svr/3rd/mongoose.c:1450-1473 | a number token or the error code of the missing digits |
| `FrozenTokens.Tokenizer.Expect` | dev/svr/3rd/mongoose.c:1496-1508 | a literal: incomplete exactly when the text ends inside it |
| `FrozenTokens.Tokenizer.ParseValue` | dev/svr/3rd/mongoose.c:1511-1530 | on success the array grows by exactly the preorder flattening of the value tree; else the code of the first error, or too-small when more tokens came before it than fit |
| `FrozenTokens.Tokenizer.ParsePair` | dev/svr/3rd/mongoose.c:1533-1554 | a key, a colon and a value, flattened one after the other |
| `FrozenTokens.Tokenizer.ParseElements` | dev/svr/3rd/mongoose.c:1481-1485 | the loop of arrays and objects, with commas optional: the children flattened in order |
| `FrozenTokens.Tokenizer.ParseArray` | dev/svr/3rd/mongoose.c:1476-1488 | the array token precedes its children and counts them all as descendants |
| `FrozenTokens.Tokenizer.ParseObject` | dev/svr/3rd/mongoose.c:1557-1569 | the same for objects, after leading white space |
| `FrozenTokens.ParseJson` | dev/svr/3rd/mongoose.c:1571-1593 | the caller's array holds the flattened tree and an end token; the result is the bytes consumed or the exact error |
| `FrozenTokens.ParseJson2` | dev/svr/3rd/mongoose.c:1595-1608 | the growing form: null exactly when the text is refused |
| `FrozenTokens.TextShaped` | dev/svr/3rd/mongoose.c:1511-1578 | every accepted text is one object whose containers begin and end at their brackets and hold their children inside, keys and values alternating |
| `FrozenTokens.RangesNestOrStayApart` | dev/svr/3rd/mongoose.c:1398-1404 | in the array, the tokens counted by num_desc are exactly those whose ranges lie inside, and all later ones lie after |
| `FrozenDocuments.DocParses` | dev/svr/3rd/mongoose.c:1428-1554 | every document, nested to any depth, with white space between any two tokens, signed numbers with fraction and exponent, strings with every escape and with characters of any width, keys with and without quotes, and commas present or not, is tokenized where it stands as the tree it denotes |
| `FrozenDocuments.RecordAccepted` | dev/svr/3rd/mongoose.c:1557-1578 | every such object, after white space and whatever follows it, is accepted, with one tree node for every part of it, at the place where it was written |
| `FrozenDocuments.AcceptsExactly` | dev/svr/3rd/mongoose.c:1511-1578 | a text of bytes is accepted with a tree and an end if and only if white space and such an object are written there, with that tree and end |
| `FrozenDocuments.PiecesScanned` | dev/svr/3rd/mongoose.c:1428-1447 | a string body of any characters and escapes ends at its closing quote, when that is not the last byte of the text |
| `FrozenDocuments.NumberParses` | dev/svr/3rd/mongoose.c:1450-1473 | a number with any of its parts ends where it was written to end |
| `FrozenDocuments.LengthIsUtf8` | dev/svr/3rd/mongoose.c:1418-1425 | for well-formed UTF-8 the length taken from the lead byte is that of the character |
| `FrozenPath.ReadIndex` | dev/svr/3rd/mongoose.c:1619-1628 | the index between brackets, or malformed |
| `FrozenPath.FindBelow` | dev/svr/3rd/mongoose.c:1629-1643 | skipping num_desc tokens at a time finds the child or the first member that the tree has, or stops exactly at the end |
| `FrozenPath.FindJsonToken` | dev/svr/3rd/mongoose.c:1616-1650 | for every path, the walk over the flat array returns the token that recursive lookup in the tree returns, or null |
| `FrozenPath.WrittenPathWalks` | dev/svr/3rd/mongoose.c:1616-1650 | looking up a written path, names joined by dots and indices in brackets, is walking its steps from the root |
| `FrozenPath.ChildIs` | dev/svr/3rd/mongoose.c:1630-1637 | index k selects the element with k elements before it, or nothing |
| `FrozenPath.MemberIs` | dev/svr/3rd/mongoose.c:1630-1642 | a name selects the value of the first pair with that key, or nothing when there is none |
| `FrozenPath.LookupHeld` | dev/svr/3rd/mongoose.c:1644-1647 | the token returned heads exactly the subtree looked up |
| `FrozenPath.ParsedHolds` | dev/svr/3rd/mongoose.c:1571-1608 | what the tokenizer wrote for an accepted text is an array the walk may be used on |
| `Glob.MatchPrefix` | dev/svr/3rd/mongoose.c:6490-6526 | the loop with its shrinking runs computes the greedy match of the first positive alternative, and terminates |
| `Glob.MatchRuns` | dev/svr/3rd/mongoose.c:6517-6520 | the do-while loop tries the longest run first and returns the first success |
| `Glob.MatchesExactly` | dev/svr/3rd/mongoose.c:6501-6525 | without alternatives the result is non-negative exactly when some run lengths match, and is the length of the match with the longest runs, first one first |
| `Glob.GreedyIsLongestFirst` | dev/svr/3rd/mongoose.c:6506-6520 | whatever run lengths match, the greedy ones match and are no shorter read from the left |
| `Glob.NothingMeansNothing` | dev/svr/3rd/mongoose.c:6494-6499 | a greedy match of length zero means every match has length zero |
| `Glob.PositiveExactly` | dev/svr/3rd/mongoose.c:6494-6499 | with alternatives the result is positive exactly when some alternative matches a positive length |
| `Glob.NonNegativeExactly` | dev/svr/3rd/mongoose.c:6494-6499 | with alternatives the result is not negative exactly when some alternative matches a positive length or the last one matches at all |
| `Glob.EmptyMatchMissed` | dev/svr/3rd/mongoose.c:6494-6499 | on the empty string the alternatives $ and b are reported as no match, although the first one matches |
| `GlobMeaning.GreedyIsMeaning` | dev/svr/3rd/mongoose.c:6501-6526 | without alternatives the matcher refuses exactly the strings no prefix of which the pattern stands for, by a definition that names no run lengths; and the prefix it returns is one |
| `GlobMeaning.LengthIsMeaning` | dev/svr/3rd/mongoose.c:6501-6525 | some run lengths match a prefix exactly when the pattern stands for it |
| `GlobMeaning.LowerIs` | dev/svr/3rd/mongoose.c:6521-6522 | two letters are taken for equal exactly when they are the same or the two cases of one letter |
| `GlobMeaning.SegmentIs` | dev/svr/3rd/mongoose.c:6506-6513 | a star can stand for a run exactly when there is no slash in it |
| `Combination.NextCombination` | dev/lsf/algorithm/combination.hpp:19-33 | true exactly when there is a descent, and then the vector is its successor; else unchanged |
| `Combination.SuccessorIsLeast` | dev/lsf/algorithm/combination.hpp:19-33 | one step keeps the number of ones and moves to the least larger binary value with that many |
| `Combination.StuckIffLargest` | dev/lsf/algorithm/combination.hpp:19-33 | a step fails exactly at the largest vector |
| `Combination.UnrankComplete` | dev/lsf/algorithm/combination.hpp:48-65 | every vector with k ones is in the listing |
| `Combination.UnrankIncreasing` | dev/lsf/algorithm/combination.hpp:48-65 | the listing is strictly increasing, so nothing repeats |
| `Combination.UnrankStep` | dev/lsf/algorithm/combination.hpp:19-33 | consecutive entries of the listing are one step apart |
| `Combination.ForCombination` | dev/lsf/algorithm/combination.hpp:38-67 | the function is called exactly C(n, k) times, with the selections of the listing in order, and every call lists its positions in strictly increasing order |
| `Combination.SelectedIncreasing` | dev/lsf/algorithm/combination.hpp:55-63 | the positions selected by a vector come in strictly increasing order |
| `Combination.EverySubsetExactlyOnce` | dev/lsf/algorithm/combination.hpp:38-67 | every k-subset of the n positions is the argument of exactly one call |
| `Combination.ChooseFactorial` | dev/lsf/algorithm/combination.hpp:38-67 | the number of calls is n! / (k! (n-k)!) |
| `CurlThreads.OnePerforms` | dev/lsf/asio/curl_thread.hpp:109-132 | under every interleaving at most one worker performs a request or has one not yet pushed |
| `CurlThreads.CallbacksOnceInOrder` | dev/lsf/asio/curl_thread.hpp:54-132 | under every interleaving each request pushed is in exactly one place, in push order, and no callback runs twice; while every AddCurl finds its handle without a callback in the map, callbacks run in push order, one for every request finished, and every request on its way has its own in the map |
| `CurlThreads.CallbacksLost` | dev/lsf/asio/curl_thread.hpp:66-104 | under every interleaving the callbacks that ran, those still to run and those lost by adding a handle again make up all that were handed over |
| `CurlThreads.InOrderExactly` | dev/lsf/asio/curl_thread.hpp:66-104 | without null callbacks: none is lost exactly when every AddCurl finds its handle without a callback in the map; and once all requests are finished, exactly then each ran once and in order |
| `CurlThreads.ReaddLosesOne` | dev/lsf/asio/curl_thread.hpp:77-78 | adding a handle again at once: whatever happens later, one of the two callbacks never runs |
| `CurlThreads.NoDeadlock` | dev/lsf/asio/curl_thread.hpp:55-132 | whenever a mutex is held, a thread holding one can take its next step |
| `CurlThreads.StepKeepsInvariant` | dev/lsf/asio/curl_thread.hpp:54-132 | every step of every thread keeps the mutex discipline, the conservation of requests and the state of the callback map; every step but a stale AddCurl keeps the order |
| `CurlThreads.WorkConserves` | dev/lsf/asio/curl_thread.hpp:109-132 | a worker moves a request from the front of the input to the end of the output without losing or reordering any |
| `CurlThreads.TickConserves` | dev/lsf/asio/curl_thread.hpp:84-105 | the tick drains the output and takes the batch from the front |
| `CurlThreads.TickKeepsOnce` | dev/lsf/asio/curl_thread.hpp:94-104 | a callback that has run is out of the map or about to be erased |
| `CurlThreads.TickKeepsOrdered` | dev/lsf/asio/curl_thread.hpp:94-104 | running and erasing a callback leaves every unfinished request its own callback in the map |
| `CurlThreads.StepAccounts` | dev/lsf/asio/curl_thread.hpp:54-132 | every step conserves the callbacks that ran, can run and were lost |
| `CurlProgress.CanFinish` | dev/lsf/asio/curl_thread.hpp:54-132 | wherever a run has come to, with at least one worker, the threads can go on without another AddCurl until every request ever registered is finished, both lists are empty and both mutexes free |
| `CurlProgress.NextLessens` | dev/lsf/asio/curl_thread.hpp:54-132 | as long as there is anything left to do some thread can take a step that lessens the work left |
| `SessionMachine.TurnMoves` | dev/svr/common/basic_handler.cpp:120-174 | every turn of the loop lowers (phase, remaining handles, rank) and keeps the cursor in range where it is used, so each call of RunStateMachine ends |
| `SessionMachine.RunSound` | dev/svr/common/basic_handler.cpp:120-174 | the loop stops in a wait state with its timer set, if one could be created, or with the session dropped |
| `SessionMachine.TurnKeeps` | dev/svr/common/basic_handler.cpp:120-174 | no turn sends a second reply, touches the timers, duplicates a lock id or a handle |
| `SessionMachine.ReceiveSound` | dev/svr/common/basic_handler.cpp:18-116 | every message, timeout, curl result or leak check leaves the session sound |
| `SessionMachine.EveryLife` | dev/svr/common/basic_handler.cpp:18-174 | over every whole run, whatever the derived class decides on each message: at most one reply, at most one live timer and exactly one while waiting if creation succeeds, each lock id leaves no more often than it was obtained, no record is held twice, only robot data is answered while the session lives, cursor in range |
| `SessionMachine.QueryExactly` | dev/svr/common/basic_handler.cpp:277-304 | the query state reaches query-success exactly when there are handles and all are answered |
| `SessionMachine.AnswerExactly` | dev/svr/common/basic_handler.cpp:306-353 | an answer reaches query-success exactly when it is good and was the last one missing, and ends the session exactly on a bad result or an unknown data type |
| `SessionMachine.OnlyRobotDataSucceeds` | dev/svr/common/basic_handler.cpp:306-353 | an answer for data other than robot data ends the session |
| `SessionMachine.TurnKeepsRobots` | dev/svr/common/basic_handler.cpp:120-174 | every turn ends the session or leaves only robot data answered |
| `SessionMachine.TurnKeepsQueried` | dev/svr/common/basic_handler.cpp:120-174 | a turn skips the query phase exactly when its handler goes straight to an update with a record unanswered |
| `SessionMachine.EveryVisitAnswered` | dev/svr/common/basic_handler.cpp:18-174 | over every whole run in which no handler does that, the query-success handler sees only answered robot data |
| `SessionMachine.UpdateFirstExactly` | dev/svr/common/basic_handler.cpp:261-403 | a loop that begins with an update shows the query-success handler an unanswered record exactly when there is one and the record under the cursor is robot data with nothing to save and not the last |
| `SessionMachine.StraightToUpdate` | dev/svr/common/basic_handler.cpp:261-403 | a handler that adds a robot and a user and goes straight to an update: query-success is shown the user, never asked for |
| `SessionMachine.RequestAndAnswer` | dev/svr/common/basic_handler.cpp:368-533 | a request waited for names the record under the cursor, and success is reached exactly by a good answer for that very record |
| `SessionMachine.VisitsInOrder` | dev/svr/common/basic_handler.cpp:261-266 | in one run of the loop the query-success handler sees the records one after another from the cursor on, none twice, none skipped |
| `SessionMachine.QueryVisitsFromFirst` | dev/svr/common/basic_handler.cpp:261-353 | coming from the query phase it sees them from the first one on |
| `SessionMachine.FinishUnlocks` | dev/svr/common/basic_handler.cpp:545-559 | at finish every need-lock handle still holding an id gets its unlock notice, before the reply |
| `SessionMachine.QueriesExactly` | dev/svr/common/basic_handler.cpp:277-304 | one query request for every record, in order, with its version and whether its lock is asked for |
| `SessionMachine.UnlocksExactly` | dev/svr/common/basic_handler.cpp:545-559 | unlock notices for exactly the records that asked for a lock and hold one |
| `SessionMachine.UpdateCarriesAnswer` | dev/svr/common/basic_handler.cpp:306-403 | the update request of a robot carries the version and the lock id its query answer brought |
| `SessionMachine.InsertedExactly` | dev/svr/common/basic_handler.cpp:176-259 | an insertion adds the record once and marks whether it holds anything, and no other record changes |
| `SessionMachine.DecisionLeads` | dev/svr/common/basic_handler.cpp:18-67 | after a handler asked the HTTP server, the config center or curl, exactly the answers of that server start the loop |
| `SessionReplies.TroubleIsTold` | dev/svr/common/basic_handler.cpp:310-604 | a turn that goes wrong ends the session, and the last thing sent is the reply with the error named for that case: to a client for each timeout but that of curl, a bad or unknown answer, a bad or mismatched result, an update of an unknown type; to a server for the curl timeout |
| `SessionReplies.RunReplies` | dev/svr/common/basic_handler.cpp:120-174 | every run of the loop adds the reply that is due and no other: the first error met, or none when nothing went wrong or a handler replied itself |
| `SessionReplies.EveryLifeReply` | dev/svr/common/basic_handler.cpp:18-174 | over every whole life the replies are none or one, with the first thing that went wrong before a handler replied, and no error if nothing did |
| `SessionReplies.ReceiveTells` | dev/svr/common/basic_handler.cpp:18-116 | every message that meets trouble has it told to the one who asked |
| `SessionReplies.FailureHiddenFromServer` | dev/svr/common/basic_handler.cpp:310-313 | a server whose database request failed gets its reply without an error |
| `SessionMachine.LocksTheNamedIff` | dev/svr/common/basic_handler.cpp:176-190 | AddQueryDataAndLock locks the record asked for and nothing else exactly when it is new, or the last one, or nothing is left to mark |
| `SessionMachine.WrongRecordLocked` | dev/svr/common/basic_handler.cpp:176-190 | asked again for the first of two records, it locks the second |
| `SessionHandler.Handler.RunStateMachine` | dev/svr/common/basic_handler.cpp:120-174 | the loop over the session fields ends in the state the machine function says, with the same messages sent |
| `SessionHandler.Handler.AddQueryData` | dev/svr/common/basic_handler.cpp:181-190 | a handle is added exactly when none has that type and id |
| `SessionHandler.Handler.OnDBSvrQuery` | dev/svr/common/basic_handler.cpp:277-304 | all handles are queried in order, and the next state depends on whether all are answered |
| `SessionHandler.Handler.OnDBSvrQueryMessage` | dev/svr/common/basic_handler.cpp:306-353 | the first matching handle takes the answer; bad results and unknown types end the session with the error noted for the one who asked |
| `SessionHandler.Handler.OnSessionFinish` | dev/svr/common/basic_handler.cpp:545-559 | the unlock notices and then the reply |
| `SessionHandler.Handler.GetRequest` | dev/svr/common/basic_handler.cpp:90-104 | a new session runs from its request state, and comes back sound for every lock id: one reply at most, waiting with the timer given or gone |
| `SessionHandler.Handler.GetServerResponse` | dev/svr/common/basic_handler.cpp:18-67 | a sound session stays sound and is waiting or gone, with at most one reply; whatever goes wrong with the answer is in the last message sent; a message of the wrong kind of server, or for no wait, changes nothing else |
| `SessionHandler.Handler.WaitResponseTimeout` | dev/svr/common/basic_handler.cpp:69-88 | the same for a timeout: the session ends, and the reply names the timeout |
| `SessionHandler.Handler.GetCurlResult` | dev/svr/common/basic_handler.cpp:106-116 | the same for a curl result, which is taken whatever the session waits for |
| `WordsFilters.Filter.CheckHasWord` | dev/lsf/util/words_filter.hpp:30-49 | true exactly when some listed word occurs somewhere |
| `WordsFilters.Filter.SubstituteInplace` | dev/lsf/util/words_filter.hpp:51-75 | returns whether a word was there; with suitable words none is left, and the sentence is the left-to-right substitution |
| `WordsFilters.Filter.SubstituteAt` | dev/lsf/util/words_filter.hpp:60-71 | the inner loop replaces exactly the first word that matches, as many substitutes as characters |
| `WordsFilters.Filter.CountCharacters` | dev/lsf/util/string_ext.hpp:335-341 | the characters of the text before its first NUL |
| `WordsFilters.Filter.Substitute` | dev/lsf/util/words_filter.hpp:77-81 | the same on a copy, and a clean sentence is copied unchanged |
| `WordsFilters.LengthIsCodePoints` | dev/lsf/util/string_ext.hpp:335-341 | of UTF-8 text without NUL the length is the number of code points |
| `WordsFilters.KeepsCharacters` | dev/lsf/util/words_filter.hpp:51-75 | a substitution leaves the number of characters as it was |
| `WordsFilters.ReplacingKeepsFree` | dev/lsf/util/words_filter.hpp:66-70 | a replacement makes no word appear before it, although the sentence shrinks under the scan |
| `WordsFilters.NoWordLeft` | dev/lsf/util/words_filter.hpp:51-75 | substitution leaves no listed word anywhere, also across the seams |
| `WordsFilters.SecondPassChangesNothing` | dev/lsf/util/words_filter.hpp:77-81 | a second pass changes nothing |
| `Managers.LowByteAt` | dev/lsf/util/serialize.hpp:19-25 | byte i of a length counts 256^i: the low byte comes first |
| `Managers.SerializeElem` | dev/lsf/util/serialize.hpp:57-66 | an element is written whole with its length exactly when it fits, and the cursor moves past it |
| `Managers.UnSerializeElem` | dev/lsf/util/serialize.hpp:69-78 | an element is read whole, or the call fails |
| `Managers.ElemRoundTrip` | dev/lsf/util/serialize.hpp:57-78 | what was written is read back at the same place, with the cursor at the same end |
| `Managers.Manager.Fill` | dev/svr/common/basic_manager.h:110-120 | the serialization loop never runs out of the computed size and ends exactly at its end |
| `Managers.Manager.SizeOf` | dev/svr/common/basic_manager.h:87-92 | the sizing loop adds up what will be written |
| `Managers.Manager.Release` | dev/svr/common/basic_manager.h:77-124 | the segment holds the image of the map in the order it was walked, replacing a stale one |
| `Managers.Manager.Init` | dev/svr/common/basic_manager.h:24-73 | the recovery loop restores what the image holds, up to the new size, and deletes the segment |
| `Managers.ImageRoundTrip` | dev/svr/common/basic_manager.h:24-124 | for every map and walking order, recovering the image brings back the elements that come first in it, as many as there is room for |
| `Managers.SameMapIff` | dev/svr/common/basic_manager.h:24-124 | the same map comes back exactly when the new size is at least the number of elements |
| `Managers.Restarted` | dev/svr/common/basic_manager.h:24-124 | a release and an init restore the elements that come first in the walk, as many as the new size allows, which is the same map exactly when it suffices, and remove the segment; an empty manager included |
| `ClientConns.ClientConnManager.Init` | dev/svr/common/client_conn_manager.cpp:36-51 | after recovery the index is the pairs of the connections recovered, in the order walked, and agrees with them |
| `ClientConns.ClientConnManager.CreateClientConn` | dev/svr/common/client_conn_manager.cpp:53-78 | a full manager refuses; otherwise map and index grow by the connection, and agree afterwards exactly when the id was not in use |
| `ClientConns.ClientConnManager.ReleaseClientConn` | dev/svr/common/client_conn_manager.cpp:80-106 | the connection and its one index pair go, and nothing else |
| `ClientConns.ClientConnManager.GetClientConnByUid` | dev/svr/common/client_conn_manager.cpp:113-119 | a live connection of that user if and only if there is one |
| `ClientConns.CreatedAgreesIff` | dev/svr/common/client_conn_manager.cpp:60-70 | the index is exact after a create if and only if the id was not in use |
| `ClientConns.EveryHistory` | dev/svr/common/client_conn_manager.cpp:36-106 | after any history of fresh-id creates, releases and restarts through the serialized image, to any sizes and with any walks, the index is exactly the pairs of live connections, each under its own id |
| `ClientConns.RestartRestores` | dev/svr/common/client_conn_manager.cpp:36-51 | a restart never fails to start, keeps the connections that come first in the walk, as many as the new size allows, and an index that agrees; it keeps all exactly when the size suffices |
| `Base64.DecodeEncode` | dev/svr/3rd/mongoose.c:826-940 | decoding an encoded byte string returns it and consumes the whole text, for every byte string |
| `Base64.EncodeBytes` | dev/svr/3rd/mongoose.c:826-863 | the one-shot loop with its padding loop computes the encoding of section 4 of RFC 4648 |
| `Base64.DecodeText` | dev/svr/3rd/mongoose.c:923-940 | the decoding loop stops at padding or at a foreign character and reports what it consumed |
| `Base64.Context.Update` | dev/svr/3rd/mongoose.c:803-813 | the context stands for everything fed so far, whatever the split |
| `Base64.Context.Finish` | dev/svr/3rd/mongoose.c:815-824 | what was sent is the one-shot encoding of everything fed, padding included |
| `Base64.WholeAndTail` | dev/svr/3rd/mongoose.c:803-824 | whole groups and the padded rest together are the one-shot encoding |
| `Base64.AlphabetIs` | dev/svr/3rd/mongoose.c:766-777 | the codes are the alphabet of table 1 of RFC 4648 |
| `Base64.GroupIsNumber` | dev/svr/3rd/mongoose.c:865-921 | four six-bit values and the three bytes they decode to are the same 24-bit number |
| `Base64.Foobar` | dev/svr/3rd/mongoose.c:826-863 | test vectors of section 10 of RFC 4648 |

## Left out

- JSON floats, and integer literals outside 64 bits or written with an exponent: they are kept as their text, and the round trip is for float-free values.
- Parser callbacks; the stream-refilling path of the scanner.
- JSON number conversion goes through `long double`; on an integer token it is taken as the exact decimal value. A literal such as `1.0`, which the source's comparison turns into an integer, is kept as a float with its text.
- JsonLexer.Lexer.GetString: the four characters given to strtoul are read as if the text went on with nulls; that the source may copy bytes from behind its end first is not modelled.
- JsonParser.Parser.ParseInternal: without a callback, and with float conversion as said above.
- JsonGrammar.AcceptsExactly: in a string with an escaped backslash right behind a surrogate pair, what comes after the pair has no meaning of its own: it is whatever the decoder reads there, having taken the second backslash for the start of an escape.
- Md5.Context.Update: does not promise the standard count for a length of 4 GiB or more, because the code drops its high bits; Md5.PaddedRightExactly says when it is right all the same.
- Sha1.Context.Update: when the 32-bit sum of the pending bytes and the length wraps, what the copy past the buffer overwrites is not modelled; the method reports it and stops.
- HttpChunk.ScanChunk: a declared size that makes the index arithmetic of `parse_chunk` wrap is reported as an overrun; what the code then reads is not modelled.
- WebSocket.Receiver.Deliver: reassembly of fragmented frames is not modelled (the source marks it as unfinished), nor a declared length that wraps, nor the close flag set after removal.
- WebSocket.Sender.SendFrame: payloads are shorter than 2^31 bytes, the range of the length `mg_send` takes.
- The eighty SHA-1 rounds and sixty-four MD5 steps are loops over groups of five and four macro uses; the host is little-endian.
- Failing allocations (buffers, token arrays) and the protobuf and libcurl internals: messages are an abstract codec, performing a request is one step.
- FrozenTokens.ParseJson: the text is not null and its length not negative; the two codes for those are not modelled.
- FrozenPath.ReadIndex: an index is unbounded where the source's int would overflow.
- Glob.MatchPrefix: strings and patterns hold no NUL, and the byte after a pattern is not `*`, which the source reads.
- Combination.ForCombination: asks for at least one position; for none the source reads past the end of an empty vector.
- Base64.DecodeText: the inverse table is written as the ranges it lists.
- CurlThreads: fairness of the scheduler (that the steps CurlProgress.CanFinish shows to be possible are taken) and the data race on the callback map between threads that add; registering a callback is one atomic step.
- SessionMachine: the entry handlers and the query-success handler are hooks, given anew with every message, that decide records, reply and next state; a query-success hook adds no records. The bytes of a record are only known to be empty or not. That every lock is released is not claimed: an empty update drops one.
- WordsFilters.Filter.SubstituteInplace: that no word is left is for words without the substitute and with at least one character before a NUL; the other results are for all words.
- Managers.UnSerializeElem: a length that wraps the cursor arithmetic on a foreign image counts as a failure.
- ClientConns: the callbacks on creating and closing a connection.
- Sockets, timers' wheel, logging, configuration, address, date and string helpers, the CoAP and DNS code, and the container wrappers: foreign calls or easy members.
