# simple_rtmp: a verified model

simple_rtmp is a small media server: a stream is published over RTMP and played over RTMP, RTSP or
HTTP-FLV. This project models its byte-level protocols and the state machines that run as long as a
connection does, and proves what they promise, for every input and every run. `dafny verify dfyconfig.toml`
checks all of it.

Each layer has the same shape. What the code changes in place is a class or a method with loops; its
contract ties the new state to a function of everything that has happened so far; and the promises are
lemmas about that function. The byte formats are matched by independent readers, written from the
standards: RTMP 1.0 (sections 5.2, 5.3.1 and 5.4), RFC 2326 (section 10.12), ITU-T H.264 (Annex B) and the
FLV specification (Annex E).

## What is modelled

* **The RTMP chunk writer** (`RtmpChunkStream`, `RtmpSender`, `RtmpServerContext`). The sender compresses
  message headers against a memory of each channel and cuts messages into chunks. A receiver written from
  section 5.3.1 recovers, on every run over all channels with Set Chunk Size steps in between, exactly the
  messages that were sent.
* **The RTMP reader** (`RtmpInput`, `RtmpServerContext`). The handshake is a function of the bytes received,
  not of the reads they came in, and a client reads from it what section 5.2 asks for; acknowledgements count
  truly although the counters wrap.
* **The HTTP/RTSP parser** (`HttpParser`, `HttpExecute`, `HttpSplits`, `HttpLimits`, `HttpCuts`,
  `ContentLengths`, `ChunkSizes`, `CharClasses`, `HeaderNames`). The automaton of the request line, status line
  and headers, one byte at a time; the buffered parser with its data marks and fast inner scans, which refines
  it; what an error leaves behind for every division of the input into buffers, and which error it is at the
  header limit; the names that are recognised; and the two kinds of numbers, content lengths and chunk sizes.
* **RTSP framing** (`RtspParser`, `RtspServerContext`, `RtspRoundTrip` with `MethodNames`, `RtspPrinting`,
  `HeaderPrinting`; `RtspForwardSession`). Requests and `$` frames come out of a byte stream the same way
  whatever reads it is cut into, and what is printed is what is parsed: which requests are accepted, with
  which content length, and which call each of them leads to.
* **The URL splitter** (`UrlParser`, `UrlAuthority`, `UrlGrammar`): which texts are URLs, as a grammar; which
  are split; and where their parts are.
* **The fan-out** (`RtmpSink`, `RtmpH264Encoder`, `Frames`, `TcpConnection`, `FlvForward`, `RtmpForward`). What
  each viewer is given is a function of the history of frames, joins and leaves; no picture comes before its header;
  the write queue loses and repeats nothing; what a viewer over FLV or RTMP reads off the wire is what the sink
  gave its channel.
* **Bitstream reframing** (`RtmpH264Decoder`, `RtspH264Encoder`, `H264Reframing`): length-prefixed NAL units
  become start-code frames and are scanned apart again.

`Bytes`, `Options`, `Sequences` and `Decimals` hold what several of these use.

## What the proofs found

Where a promise does not hold of the code on all inputs, a lemma says exactly when it does.

* A frame of 0 or of at least 0xFFFFFF bytes is not sent over RTMP but moves the sender's clock
  (`rtmp_server_context.cc:143-158`): later timestamps on that channel reach the receiver shifted. All
  messages are recovered if and only if all have a length that is sent (`MessagesRecovered`,
  `RefusedFrameShiftsTheClock`). The encoders put a tag in front of every frame, so that of these only the
  long ones occur.
* A request that begins with `R` is taken for a response, and the name of M-SEARCH is spelt with spaces
  (`third/http_parse/http_parser.h:191`), so REPORT, REBIND and M-SEARCH requests never parse as themselves
  (`ParseableExactlyWhen`).
* The headers of a printed request are refused, with the error of the first that is, exactly when a content
  length does not begin with a digit, is a second one, or is no number within the limit, or when one stands
  beside a transfer coding (`FeedRequest`, `RequestRoundTrip`). A name that only begins like Transfer-Encoding
  counts as one (`http_parser.c:1400-1409`; `CodingByItsBeginning`).
* A header without a value, unless it is the last, merges with the next one (`rtsp_parser.h:163-188`):
  headers are told apart if and only if there is none (`HeadersAreKeptExactlyWhen`). A lookup by a name that
  nothing else spells finds its value if and only if no such header stands in front (`LookupExactlyWhen`,
  `LookupsExactlyWhen`; `ValueIsLost` is a request in which it does not).
* On a parse error the count and the data called back depend on how the input was cut (`CutsShow`). What is
  lost is exactly the data the parser was in the middle of, as far as they lie in the buffer of the error. Two
  divisions agree if and only if there are none, or their last cuts are the same, or both lie before these
  data - for the count, before the scan over them (`BuffersAre`, `SplitsAgreeExactlyWhen`). Error and place
  are the same for all divisions, but for the header limit (`CutsAtTheLimit`): there another error is reported
  if and only if the limit falls into a header value whose scan began earlier in the same buffer, and a byte
  follows in that buffer and line that the value refuses (`LimitReportedExactlyWhen`,
  `ErrorsAgreeExactlyWhen`).
* The table of hexadecimal digits has entries for 128 bytes only (`http_parser.c:224-233`), so that a byte above
  127 in a chunk size counts as the digit 0 (`HighBytesAreDigits`).
* Over any run of reads the acknowledgements are right exactly when no read takes the unacknowledged count to
  2^32 or more with a remainder within the window (`TrueExactlyWhen`). With the largest window no
  acknowledgement is ever sent for 65536 reads of 65536 bytes (`AcknowledgementIsMissed`).
* Frames that are neither sound nor picture are written to FLV with the type of video, and the size field keeps
  24 bits: the stream reads back if and only if there are no such and no larger ones
  (`StreamReadsBackExactlyWhen`). The
  sink hands on sound and picture only (`rtmp_sink.cc:151-158`), so that script frames do not reach a session.
* Frames wait in the write queue with no write under way exactly when a write has failed with no callback
  set and no frame has been submitted since (`StalledExactlyWhen`).
* When parameter sets change without an IDR picture, a late joiner is sent the new sequence header with
  frames made under the old one (`NewHeaderWithinGroup`). The header sent was in force for all pictures sent
  with it if and only if no header has been made since the last IDR picture (`JoinerDecodesExactlyWhen`).
* A unit that holds a start code, but for one at its very end, is taken apart by the RTSP side, and zeros at its
  end are dropped: a run is reframed without loss if and only if there is no such unit, nor such a parameter
  set (`ReframingExactlyWhen`).
* When the library cannot make the parameter sets, the rest of every access unit from its first IDR picture
  on is dropped (`WithoutSets`).
* The target of a CONNECT request is split although a bare `?`, and `#` after it, follow host and port
  (`SplitExactlyWhen`).
* The largest content length accepted is 18446744073709551609; the six larger values that fit in 64 bits are
  refused (`NumberAcceptedExactlyWhen`). The largest chunk size is 18446744073709551599, sixteen less than fit
  (`SizeReadsBackExactlyWhen`).

## Model

| member | source | states |
|---|---|---|
| RtmpSender.FoundExactlyWhenPresent | rtmp_server_context.cc:80-93 | the search over the slots, from the channel's own one on and round, finds a slot exactly when one holds the channel |
| RtmpServerContext.ServerContext.FindPacket | rtmp_server_context.cc:80-93 | the search loop is that search on the slots as they stand |
| RtmpChunkStream.ShortestFormatIsChosen | rtmp_server_context.cc:114-131 | after a message that was sent, the format chosen is the shortest that the receiver understands; without compression, or when the time goes back or too far on, it is the full one |
| RtmpServerContext.ServerContext.CompressHeader | rtmp_server_context.cc:94-135 | one of four formats is chosen and the slot of the channel, and no other, remembers the compressed header and the absolute timestamp; an unknown channel changes nothing |
| RtmpChunkStream.ReadFirstChunk | rtmp_server_context.cc:148-156 | a receiver reads from the first chunk every field of the header, those that the format leaves out from its memory of the channel |
| RtmpChunkStream.DecodePieces | rtmp_server_context.cc:158-177 | the rest of a message, in any number of format 3 chunks with the extended timestamp repeated where the first had one, is put together to exactly its payload |
| RtmpChunkStream.DecodeMessage | rtmp_server_context.cc:137-180 | the chunks of one message decode to one message of the same channel, type and payload, and nothing of what follows is touched |
| RtmpChunkStream.DecodeControl | rtmp_server_context.cc:255-279 | a protocol control message is read in one chunk, and Set Chunk Size takes effect at once |
| RtmpServerContext.ServerContext.SendChunks | rtmp_server_context.cc:155-177 | the chunk loop sends a full header, then pieces of at most the chunk size, each with a format 3 header |
| RtmpServerContext.ServerContext.WriteChunks | rtmp_server_context.cc:137-180 | memory, bytes sent and result are those of the model's writer, also for the lengths that are refused after the memory has been changed |
| RtmpServerContext.ServerContext.SendAudio | rtmp_server_context.cc:725-741 | one audio event: nothing at all when the client wants no audio |
| RtmpServerContext.ServerContext.SendVideo | rtmp_server_context.cc:743-759 | one video event: nothing at all when the client wants no video |
| RtmpServerContext.ServerContext.SendScript | rtmp_server_context.cc:761-771 | one script event on the invoke channel |
| RtmpServerContext.ServerContext.SendSampleAccess | rtmp_server_context.cc:319-332 | one message that is never compressed, on the invoke channel |
| RtmpServerContext.ServerContext.SendCommand | rtmp_server_context.cc:218-228 | the answer to a command, never compressed, on the invoke channel and the message stream it names |
| RtmpServerContext.ServerContext.SendSetChunkSize | rtmp_server_context.cc:255-263 | the control message with the new size, which applies from then on |
| RtmpSender.ReconstructedExactlyWhen | rtmp_server_context.cc:114-134 | timestamp and stream id come out right exactly when the format is 0 or the receiver's memory of them is the sender's, and then both memories are the same again |
| RtmpSender.WriteDecodes | rtmp_server_context.cc:137-180 | a written message arrives whole on its channel; a refused one sends nothing; sender and receiver stay coupled on every channel |
| RtmpSender.WriteResult | rtmp_server_context.cc:143-147 | the writer reports an error exactly for lengths from 2^24 - 1 on, and none for a length of 0, although nothing is sent |
| RtmpSender.RunDecodes | rtmp_server_context.cc:137-180 | from any coupled state, the output of any run decodes to whole messages, up to whatever bytes follow it |
| RtmpSender.RunAsks | rtmp_server_context.cc:218-332 | what is handed to the chunk writer over any run is what the events call for: channel, type, time and message stream of each, and nothing for a medium that the client has switched off |
| RtmpSender.RunDelivers | rtmp_server_context.cc:137-180 | from any coupled state every run delivers channel, type and payload of every sendable message; from a state in step, with all messages sendable, the messages themselves, and ends in step |
| RtmpSender.FramingHolds | rtmp_server_context.cc:137-180 | on every run the receiver consumes all bytes and gets one message per sendable message, in order, with its channel, type and payload |
| RtmpSender.MessagesRecovered | rtmp_server_context.cc:94-180 | on every run the receiver recovers every message called for - channel, timestamp, type, stream id, payload - if and only if all have a length that is sent, and then its memory of every channel is the sender's |
| RtmpSender.RefusedFrameShiftsTheClock | rtmp_server_context.cc:132-158 | a frame of any length that is refused moves the clock: the next frame arrives with a timestamp 40 ms too early |
| RtmpServerContext.ServerContext.SendAcknowledgement | rtmp_server_context.cc:266-279 | both counters and the acknowledgement, if due, with the count received |
| RtmpInput.AcknowledgeExactlyWhen | rtmp_server_context.cc:268-276 | for which read sizes the wrapping counters do what unbounded ones would |
| RtmpInput.TrueExactlyWhen | rtmp_server_context.cc:266-279 | on every run of reads of any sizes: the acknowledgements are the true totals modulo 2^32 exactly when no read wraps |
| RtmpInput.AcknowledgementIsMissed | rtmp_server_context.cc:266-279 | 2^32 bytes in reads of 65536 bytes are never acknowledged, although the window is smaller |
| RtmpInput.NoWindowNoAcknowledgement | rtmp_server_context.cc:268-269 | with a window of 0 nothing is acknowledged, and the bytes are counted |
| RtmpInput.AcknowledgementsAreTrue | rtmp_server_context.cc:266-279 | on every run of reads that fit in 32 bits with the window: each acknowledgement is the true total modulo 2^32, the true totals strictly increase, and at most the window is unacknowledged afterwards |
| RtmpInput.ClientReadsGreeting | rtmp_server_context.cc:242-252 | a reader of sections 5.2.2 to 5.2.4 finds version 3, the server's time and a zero, and the time and the random bytes of C1 as received, for every C1 and whatever follows |
| RtmpServerContext.ClientReadsAll | rtmp_server_context.cc:242-279 | behind these a receiver finds the acknowledgements as messages of type 3 with their counts, and nothing else |
| RtmpServerContext.ServerContext.ReadC1 | rtmp_server_context.cc:661-680 | C1 is gathered over reads and answered in the one that completes it, from the gathered bytes |
| RtmpServerContext.ServerContext.Input | rtmp_server_context.cc:642-706 | after a read of any size the state is that of the concatenated bytes, and the read sent the handshake answer if it completed C1, and an acknowledgement if one was due |
| RtmpServerContext.ServerContext.InputAll | rtmp_server_context.cc:642-706 | over any reads: state and block count are fixed functions of the number of bytes; nothing is sent before C1 is whole; then a client reads from all that is sent S0, S1 and S2 once, with its own time and random bytes echoed, and exactly the acknowledgements of the run of reads that reach the chunk reader; and the chunk reader gets exactly the bytes from offset 3073 on |
| RtmpInput.ChunkReadsAreCounted | rtmp_server_context.cc:700-702 | that run of reads holds exactly the bytes of the chunk stream, and no empty read |
| CharClasses.ClassesAre | third/http_parse/http_parser.c:190-277 | the character classes of tokens, values, user information, host names and URLs, in the terms of RFC 7230, RFC 3986 and RFC 6874 |
| HttpParser.Segmentation | third/http_parse/http_parser.c:650-2230 | feeding two buffers is feeding their concatenation: same parser, count, error, consumed bytes and events, unless the first buffer ends the parse |
| HttpParser.FeedPosition | third/http_parse/http_parser.c:724-726 | the parse goes on to the end of the data unless an error or a whole message comes first, and never past the header limit |
| HttpExecute.ScanTokens | third/http_parse/http_parser.c:1318-1436 | the inner scan over a header name reaches the state that the bytes one by one lead to |
| HttpExecute.ScanField | third/http_parse/http_parser.c:1318-1453 | with its late counting the scan has the outcome of the bytes one by one, also at the header limit |
| HttpExecute.ScanValue | third/http_parse/http_parser.c:1544-1768 | the scan over a header value, with its search for the end of the line, has the outcome of the bytes one by one; past the header limit it reports the first byte the value refuses, if it meets one |
| HttpExecute.Parsing.ExecuteBytes | third/http_parse/http_parser.c:650-2230 | without an error: parser, count, consumed bytes and callbacks are the automaton's; with one: the same error and place, all data called back but those the parser was in the middle of, a count that leaves out the rest of a value, and the automaton's parser but for a stale header state; at the header limit: which error, for buffers of any size |
| HttpExecute.Parsing.Execute | third/http_parse/http_parser.c:650-706 | the same for every call, with a parser already in error, and with the empty buffer that ends the input |
| HttpSplits.BuffersAre | third/http_parse/http_parser.c:40-175 | for every division into buffers, within the header limit, the outcome is that of all bytes together; on an error, what is lost, what is counted and what header state is left are fixed by the last cut before it |
| HttpSplits.SplitsAgreeExactlyWhen | third/http_parse/http_parser.c:40-175 | exactly when two divisions lead to the same data called back, and to the same count |
| HttpLimits.ExecuteAll | third/http_parse/http_parser.c:650-2230 | through the object, buffer after buffer: without an error parser, count and callbacks are the automaton's; with one it is that of the division, and within the header limit so are parser, count and callbacks |
| HttpLimits.LimitReportedExactlyWhen | third/http_parse/http_parser.c:1544-1768 | for every division into buffers no longer than the limit: exactly when another error than the limit is reported at the limit |
| HttpLimits.ErrorsAgreeExactlyWhen | third/http_parse/http_parser.c:1544-1768 | exactly when two divisions of the same data lead to the same error |
| HttpCuts.CutsShow | third/http_parse/http_parser.c:1544-1768 | a request cut in two ways: two bytes more called back, and one more counted |
| HttpCuts.CutsAtTheLimit | third/http_parse/http_parser.c:1544-1768 | a request cut in two ways at the header limit: two different errors |
| HttpCuts.Report | third/http_parse/http_parser.c:650-2230 | the object reports the error of the division |
| HttpExecute.StepStopsRight | third/http_parse/http_parser.c:1857-1944 | the parser returns early only at the end of the headers |
| HeaderNames.NameGoesOn | third/http_parse/http_parser.c:1287-1421 | while a name is read the parser is in the state of what has been read of it, in lower case, and has taken note of a transfer coding exactly when that name has been read |
| HeaderNames.RecognisedExactlyWhen | third/http_parse/http_parser.c:1287-1421 | a whole name is taken for Content-Length, Transfer-Encoding, Connection or Upgrade exactly when it is that, in any case |
| ContentLengths.NumberKeptIsExact | third/http_parse/http_parser.c:1498-1518 | from a new parser on, for every input, over folded, split and repeated headers: the number kept is the value of the digits read, below 2^64 - 1, and is 2^64 - 1 before any |
| ContentLengths.ContentLengthIsExact | third/http_parse/http_parser.c:1498-1518 | the same from any state of which that holds |
| ContentLengths.DigitAcceptedExactlyWhen | third/http_parse/http_parser.c:1604-1633 | a further digit is refused exactly when the number so far is above the limit |
| ContentLengths.NumberAcceptedExactlyWhen | third/http_parse/http_parser.c:1604-1633 | a number is accepted exactly when what stands before its last digit is within the limit, and is then its decimal value |
| ChunkSizes.ChunkLine.Execute | third/http_parse/http_parser.c:2058-2136 | after any buffer the line is that of all bytes so far; it stops behind the line feed, or at the byte in error |
| ChunkSizes.ReadAppend | third/http_parse/http_parser.c:2058-2136 | how the line is cut into buffers makes no difference |
| ChunkSizes.HexDigitAcceptedExactlyWhen | third/http_parse/http_parser.c:2074-2109 | a further digit is refused exactly when the number so far is above the limit |
| ChunkSizes.HexNumberAcceptedExactlyWhen | third/http_parse/http_parser.c:2058-2109 | a number is read as its value exactly when what stands before its last digit is within the limit |
| ChunkSizes.FitsExactlyWhen | third/http_parse/http_parser.c:2101-2105 | these are exactly the numbers up to 18446744073709551599, never the mark of an absent length |
| ChunkSizes.LineAcceptedExactlyWhen | third/http_parse/http_parser.c:2058-2136 | exactly these lines are accepted: digits of such a number, parameters behind a semicolon or a space, CR LF, within the header limit; the size is the number |
| ChunkSizes.SizeReadsBackExactlyWhen | third/http_parse/http_parser.c:2058-2136 | a printed size comes back exactly up to that bound |
| ChunkSizes.HighBytesAreDigits | third/http_parse/http_parser.c:224-233 | a byte above 127 counts as the digit 0 |
| MethodNames.GuessIsFirst | third/http_parse/http_parser.c:966-1008 | the first letter of a name leads to the method from which the corrections lead to the named one |
| MethodNames.NamesAreRecognised | third/http_parse/http_parser.c:1010-1065 | matching letter by letter with corrections, every name but that of M-SEARCH ends at its own method |
| RtspPrinting.ReadUrl | third/http_parse/http_parser.c:1067-1122 | every byte of a valid URL is reported as URL data, and the state is that of the URL |
| HeaderPrinting.ReadUpToValue | third/http_parse/http_parser.c:1268-1468 | from the beginning of a line, the parser is in a content length exactly when the name is Content-Length, in any case |
| HeaderPrinting.ReadHeader | third/http_parse/http_parser.c:1268-1855 | a printed header, its value broken into any lines, is read whole and reported as its name and value; a content length is kept as its number |
| HeaderPrinting.RefuseHeader | third/http_parse/http_parser.c:1498-1645 | an invalid content length, or a second one, makes the parser fail with that error, at the latest at the byte that follows |
| RtspParser.DivisionIsInvisible | rtsp_parser.h:107-188 | however data are divided over callbacks, the gathered URL and headers are the same |
| RtspParser.CompleteExactlyWhen | rtsp_parser.h:122-129 | the message is complete exactly when the parser has returned for it |
| RtspParser.VerdictStands | rtsp_parser.h:25-41 | an error or a whole message is the same whatever follows; a message takes at least a byte and at most the header limit |
| RtspParser.MessageParser.Reset | rtsp_parser.h:48-66 | the parser is as new |
| RtspParser.MessageParser.OnHeaderField | rtsp_parser.h:163-178 | a name after a value stores the header before it |
| RtspParser.MessageParser.Input | rtsp_parser.h:25-41 | the parser object returns -1, -2 or the length as the message function says, with its method, URL and headers |
| RtspServerContext.NextItemStands | rtsp_server_context.cc:49-99 | a whole item, or a bad one, stays what it is when more bytes arrive |
| RtspServerContext.FramesAppend | rtsp_server_context.cc:19-47 | framing a stream is framing its beginning and then what was left with the rest of the stream |
| RtspServerContext.RestIsBounded | rtsp_server_context.cc:19-47 | what waits between reads is at most the header limit |
| RtspServerContext.ServerContext.ParseInterleaved | rtsp_server_context.cc:71-99 | one `$` frame: wait, refuse below 12 bytes, or deliver channel and payload |
| RtspServerContext.ServerContext.ParseRequest | rtsp_server_context.cc:49-69 | one request, parsed from its beginning, with the parser reset whenever it has to wait |
| RtspServerContext.ServerContext.ProcessRequest | rtsp_server_context.cc:101-125 | the owner is called for one of the five methods, with URL and headers, and for no other |
| RtspRoundTrip.DispatchedRight | rtsp_server_context.cc:101-215 | OPTIONS, DESCRIBE, SETUP, PLAY and TEARDOWN lead to the calls of these names, with the URL and the first values of Session and Transport, and the other methods to none |
| RtspRoundTrip.CallsAsPrinted | rtsp_server_context.cc:188-215 | if headers without a value come last, these are the values as printed |
| RtspServerContext.ServerContext.Input | rtsp_server_context.cc:19-47 | after any reads the calls made and the bytes kept are those of the concatenated stream, and -1 is returned exactly when it is not acceptable; every round ends |
| RtspRoundTrip.HeadersAreKeptExactlyWhen | rtsp_parser.h:163-188 | the callbacks tell headers apart exactly when none but the last has an empty value |
| RtspRoundTrip.LookupIsFirst | rtsp_parser.h:96-104 | a lookup finds the first value of a name |
| RtspRoundTrip.FeedRequest | third/http_parse/http_parser.c:740-1944 | a printed request is read whole, with the content length that its headers give, or the parser fails with the error of the first header that is refused, or of a content length beside a transfer coding |
| RtspRoundTrip.OneLength | third/http_parse/http_parser.c:1498-1633 | with one content length among other headers: it is kept as the decimal value of its digits exactly when these are a number within the limit, and refused otherwise |
| RtspRoundTrip.CodingByItsBeginning | third/http_parse/http_parser.c:1400-1409 | a header whose name only begins like Transfer-Encoding, beside a content length, is refused |
| RtspRoundTrip.RequestRoundTrip | third/http_parse/http_parser.c:740-1944 | a printed request parses to its method, URL and headers, and takes the printed length, exactly when its headers are not refused; otherwise parsing fails |
| RtspRoundTrip.LookupExactlyWhen | rtsp_parser.h:96-188 | the value of a header is found under its name, if nothing else spells that, exactly when no header without a value stands in front of it |
| RtspRoundTrip.LookupsExactlyWhen | rtsp_parser.h:96-188 | all lookups are right if headers without a value come last, and, when no name with a value is spelt by anything else, only then |
| RtspRoundTrip.ValueIsLost | rtsp_parser.h:163-188 | a request with an empty header in front of another, whose value is not found under its name |
| RtspRoundTrip.ParseableExactlyWhen | third/http_parse/http_parser.c:740-786 | a printed request parses to its own method exactly for the methods other than M-SEARCH, REPORT and REBIND, and headers that are not refused |
| RtspRoundTrip.StreamRoundTrip | rtsp_server_context.cc:19-99 | any sequence of printed requests and frames is framed into exactly the calls these are for, in order |
| RtspRoundTrip.RefusedRequestEnds | rtsp_server_context.cc:19-69 | a request whose headers are refused ends the stream: what came before is delivered, and nothing after |
| RtspRoundTrip.FrameExactlyWhen | rtsp_forward_session.cc:71-80 | a written frame comes back exactly when it has 12 to 65535 bytes |
| RtspRoundTrip.ReceiveAll | rtsp_server_context.cc:19-47 | the same through the object, for every split of the stream into reads |
| RtspForwardSession.Session.MakeFrameHeader | rtsp_forward_session.cc:71-80 | a `$`, the channel, and two bytes that read back as the size, modulo 2^16 |
| RtspForwardSession.Session.ChannelOut | rtsp_forward_session.cc:82-160 | an RTP packet goes out on its channel, behind a report when one is due; other media and errors write nothing |
| RtspForwardSession.ReportedExactlyWhen | rtsp_forward_session.cc:94-130 | a report goes out before a packet exactly when the interval has passed since every report before it: so before the first packet, and never two within an interval |
| RtspForwardSession.SessionReadsBack | rtsp_forward_session.cc:132-160 | all a session has written is framed by the other side into exactly its packets and reports, in order |
| UrlParser.CutsAreSharp | third/http_parse/http_parser.c:503-648 | the bytes of each part of a URL stand together, in the order of the parts |
| UrlParser.PartsTile | third/http_parse/http_parser.c:2501-2557 | schema, authority, path, query and fragment make up the URL, with nothing between them but `://`, one `?` and some `#` |
| UrlGrammar.UrlsAreLayouts | third/http_parse/http_parser.c:503-648 | the URL automaton takes exactly the texts laid out as schema, as much of `://` as there is, authority without `@@`, path, query and fragment, each of its own characters and after what it needs before it |
| UrlGrammar.TargetsAreLayouts | third/http_parse/http_parser.c:1108-1138 | the request target may end exactly after a layout that reaches beyond its schema |
| UrlGrammar.PartsArePieces | third/http_parse/http_parser.c:2501-2557 | the ranges noted for a URL are the pieces of its layout, query and fragment without their delimiters |
| UrlGrammar.SplitExactlyWhen | third/http_parse/http_parser.c:2485-2605 | a URL can be split exactly when it is a layout with an authority after its schema, the authority is of its form with a port of at most 65535, and for CONNECT there is only host and port, up to bare delimiters |
| UrlGrammar.NotedAreThePieces | third/http_parse/http_parser.c:2501-2557 | schema, path, query and fragment are noted exactly when they are there, as they stand in the URL |
| UrlGrammar.NotedAreTheServer | third/http_parse/http_parser.c:2397-2602 | the authority is put together of the user information, the host without its brackets and the port that are noted, and the port is their decimal value |
| UrlParser.AtExactlyWhenInText | third/http_parse/http_parser.c:2520-2522 | user information is looked for exactly when the authority holds an `@` |
| UrlParser.UrlParts.Scan | third/http_parse/http_parser.c:2501-2557 | the loop fails exactly when the automaton does, and otherwise has noted offset and length of every part |
| UrlAuthority.AcceptsExactlyForms | third/http_parse/http_parser.c:2316-2395 | the host automaton accepts exactly the authorities of the form user information, host or bracketed address with zone, port |
| UrlAuthority.FormIsUnique | third/http_parse/http_parser.c:2316-2395 | an authority has that form in one way only |
| UrlAuthority.ParseHost | third/http_parse/http_parser.c:2397-2477 | the loop succeeds exactly on that form and finds host (non-empty), port and user information where they stand |
| UrlParser.UrlParts.ReadPort | third/http_parse/http_parser.c:2577-2602 | the port is the decimal value of its digits, refused exactly above 65535 |
| UrlParser.UrlParts.Parse | third/http_parse/http_parser.c:2485-2605 | 0 is returned exactly for the URLs that can be split, also for CONNECT, and then every part is noted where it stands |
| Frames.FrameBuffer.AppendFrame | frame_buffer.h:325-337 | appending a frame appends its bytes and takes over its metadata |
| Frames.FrameBuffer.Erase | frame_buffer.h:244-254 | erasing drops the first bytes, at most all |
| Frames.FrameBuffer.Resize | frame_buffer.h:347-350 | resizing keeps a prefix or pads with zeros |
| RtmpSink.Sink.OnVideoFrame | rtmp_sink.cc:74-92 | configuration kept, key frame begins the cache, other pictures join it once it has begun |
| RtmpSink.Sink.OnFrame | rtmp_sink.cc:50-99 | after any frame or error, members, cached state and all that every channel was given are those of the history |
| RtmpSink.Sink.SafeAddChannel | rtmp_sink.cc:116-133 | the same after a join, which sends the snapshot to the joiner |
| RtmpSink.Sink.SafeDelChannel | rtmp_sink.cc:106-109 | the same after a leave |
| RtmpSink.ConfigurationExactlyWhen | rtmp_sink.cc:40-48 | in terms of FLV tags: configurations are the sequence headers of video, and of AAC and Opus sound |
| RtmpSink.GopOfOneMore | rtmp_sink.cc:82-91 | the cache rule computes the pictures since the last key frame of the history |
| RtmpSink.JoinerSees | rtmp_sink.cc:50-133 | a channel is given the latest configurations, the pictures since the last key frame, then every frame until it leaves, and nothing after |
| RtmpSink.JoinerCatchesUp | rtmp_sink.cc:82-133 | from a key frame on, a late joiner is given the same pictures as a viewer that was there before it |
| RtmpSink.MembersHoldCurrent | rtmp_sink.cc:76-80 | the last sequence header a member was given is the one in force |
| RtmpSink.HeadersComeFirst | rtmp_sink.cc:45-133 | if headers come first in what is put in, they come first for every channel |
| RtmpH264Encoder.H264Encoder.Write | rtmp_h264_encoder.cc:50-122 | the sink gets errors as they are, a header for new parameter sets, pictures once there was a header, and nothing when the library fails |
| RtmpH264Encoder.AllIsPutIn | rtmp_h264_encoder.cc:50-122 | on every run the sink is given exactly: errors as they are, a sequence header for every step that makes one, right in front of its picture, and every picture of a converted access unit once a header has been made |
| RtmpH264Encoder.PicturesComeOut | rtmp_h264_encoder.cc:101-121 | the coded pictures in the history of the sink are these pictures, once each and in order |
| RtmpH264Encoder.PayloadsReadBack | rtmp_h264_encoder.cc:79-120 | sequence headers and pictures read back as FLV video tags with the record or the converted unit, key frames for IDR pictures and inter frames for others |
| RtmpH264Encoder.NoPictureBeforeHeader | rtmp_h264_encoder.cc:76-121 | on every run of encoder and sink no channel is given a picture before a sequence header |
| RtmpH264Encoder.JoinerDecodesExactlyWhen | rtmp_h264_encoder.cc:76-121 | after any run of encoder and sink, a joiner is sent the header that was in force for every picture it is sent exactly when no header has been made since the last IDR picture |
| RtmpH264Encoder.RunIsCurrent | rtmp_h264_encoder.cc:76-121 | the header flag and the last key frame of the sink, in terms of the steps: a header has been made, an IDR picture came after one |
| RtmpH264Encoder.NewHeaderWithinGroup | rtmp_h264_encoder.cc:76-101 | a joiner is sent a header that was not in force, when new parameter sets come with another picture or none |
| TcpConnection.Connection.SafeWriteFrame | tcp_connection.cc:100-104 | a frame is queued, and a write begins if none is under way |
| TcpConnection.Connection.SafeDoWrite | tcp_connection.cc:106-125 | all waiting frames become the batch being written, unless there is one |
| TcpConnection.Connection.SafeOnWrite | tcp_connection.cc:127-143 | the batch ends, and the next begins unless the write failed with no callback set |
| TcpConnection.BatchTakesAll | tcp_connection.cc:106-125 | a write that begins takes all frames that wait, and none begins while another is under way |
| TcpConnection.FirstInFirstOut | tcp_connection.cc:95-143 | on every run: frames settled, then in flight, then waiting are the frames submitted, and at most one write is under way, exactly while frames are in flight |
| TcpConnection.EverythingIsWritten | tcp_connection.cc:95-143 | on error-free runs the wire holds a prefix of the submitted bytes, and all of them whenever no write is under way |
| TcpConnection.FailureCutsShort | tcp_connection.cc:127-140 | the first failing write leaves a prefix of the submitted bytes on the wire |
| TcpConnection.StalledExactlyWhen | tcp_connection.cc:127-143 | frames wait with no write under way exactly after a failed write without a callback and no frame submitted since |
| FlvForward.Session.ChannelOut | flv_forward_session.cc:153-190 | all frames handed to the connection are the file header, before the first frame only, and header, data and back-pointer of each frame |
| FlvForward.TagReadsBack | flv_forward_session.cc:173-189 | a tag of less than 2^24 bytes reads back with its back-pointer, whatever follows |
| FlvForward.StreamReadsBackExactlyWhen | flv_forward_session.cc:13-190 | what is written for any frames reads back as exactly these audio tags of type 8 and video tags of type 9, behind a header that announces both, if and only if all are sound or picture and have less than 2^24 bytes |
| FlvForward.ViewerReadsWhatTheSinkGave | flv_forward_session.cc:153-190 | through sink, session and connection, a viewer reads off the wire exactly the snapshot and the frames after it |
| RtmpForward.Session.ChannelOut | rtmp_forward_session.cc:60-83 | all that is sent is the handshake and the run of events so far, to which a frame adds its message |
| RtmpForward.Session.OnRead | rtmp_forward_session.cc:85-94 | the same after any read, to which an acknowledgement is added when one is due |
| RtmpForward.ViewerReceives | rtmp_forward_session.cc:60-83 | whatever else is sent in between, the receiver has the frames of the channel with their times as its sound and picture, if and only if each has a length that is sent |
| RtmpForward.ClientReceivesWhatTheSinkGave | rtmp_forward_session.cc:60-145 | through sink, session, chunk writer and connection, a client decodes from the wire exactly the snapshot and the frames after it, if and only if each has a length that is sent |
| RtmpH264Decoder.Decoder.DemuxAvPacket | rtmp_h264_decoder.cc:101-158 | an access unit is put out unit by unit as the model says, and the flag is set exactly when the parameter sets went out |
| RtmpH264Decoder.Decoder.Write | rtmp_h264_decoder.cc:44-85 | a sequence header starts anew, nothing comes out before one, errors and the end are passed on |
| RtmpH264Decoder.UnitsInOrder | rtmp_h264_decoder.cc:105-156 | every unit comes out once, in order, behind a start code, and the parameter sets right before the first IDR picture unless they were sent |
| RtmpH264Decoder.WithoutSets | rtmp_h264_decoder.cc:126-140 | without parameter sets exactly the units before the first IDR picture come out |
| RtmpH264Decoder.SetsOnceInRun | rtmp_h264_decoder.cc:101-158 | over all access units after a sequence header the parameter sets come out once |
| RtmpH264Decoder.TimedExactlyWhen | rtmp_h264_decoder.cc:126-156 | the frames put out are exactly those with these payloads, the decoding time of the access unit, the presentation time its offset later, and its mark of key frames |
| RtmpH264Decoder.PackReadsBackExactlyWhen | rtmp_h264_decoder.cc:113-122 | units behind lengths are split as written exactly when none is empty |
| RtspH264Encoder.StartCode | rtsp_h264_encoder.cc:120-132 | the search finds the first start code that something follows |
| RtspH264Encoder.Encoder.Write | rtsp_h264_encoder.cc:50-104 | an error is passed on and changes nothing; the parameter sets kept are the last of each type among the units of the frame, and the track is made of the first pair |
| RtspH264Encoder.AtLeastAsMany | rtsp_h264_encoder.cc:62-99 | no start code of four bytes is passed over, whatever the units hold |
| RtspH264Encoder.ScanExactlyWhen | rtsp_h264_encoder.cc:62-99 | on any mix of start codes the units found are those written if and only if none ends with a zero or holds a start code, but for one at the very end |
| H264Reframing.FrameReadsBack | rtsp_h264_encoder.cc:62-99 | the scanner gives back the unit of each decoder frame exactly under that condition |
| H264Reframing.ReframingExactlyWhen | rtmp_h264_decoder.cc:101-158 | a whole run through decoder and scanner, frame by frame, gives back all units with the parameter sets before the first IDR picture, if and only if every unit can be told apart in its frame and, once there is an IDR picture, the sets can in theirs |
| H264Reframing.Forward | rtsp_h264_encoder.cc:50-104 | all the decoder puts out, handed to the scanner frame by frame: the units found and the sets kept |
| H264Reframing.Reframe | rtmp_h264_decoder.cc:44-158 | the same result through both objects, from the sequence header on |
| H264Reframing.TypesAreRead | rtsp_h264_encoder.cc:85-99 | decoder and scanner read the type of a unit whatever its nal_ref_idc: 5 IDR pictures, 7 and 8 parameter sets |
| H264Reframing.SetsAreTaken | rtsp_h264_encoder.cc:85-104 | the scanner takes the last sequence and picture parameter set out of the frame of parameter sets |

## Left out

* The media libraries (librtmp, librtp, libflv, libmpeg) are not part of this model. Chunk, handshake and FLV
  headers are written from the standards; the number of channels and their numbers are those of the
  library; conversions of access units and parameter sets are arbitrary results.
* Closing a socket shows only as writes that fail. Sockets, executors, the accept loop, threads, logging and the
  HTTP API: posted handlers are steps in any order, sends are appended to a sequence and are taken to succeed,
  and frames are not changed once they have been handed on.
* The chunk reader and AMF commands: what the chunk reader is handed is modelled, not what it does, nor the text
  of commands and answers. The answers go through the chunk writer of the library
  (`rtmp_server_context.cc:227`), which is taken to be the one written out in `rtmp_server_context.cc:137-180`.
- RtmpServerContext.ServerContext.Input: the version in C0 is only asserted in the code, and any is accepted, as
  in a build without assertions.
- RtmpServerContext.ServerContext.InputAll: the acknowledgement window is the same throughout; a client may
  change it through the chunk reader.
- HttpExecute.Parsing.ExecuteBytes: at the header limit the error is stated, but not the place, the count and the
  callbacks, which the fast scans leave behind; the callbacks of the user are made after the parse, and answer
  0, but for the end of the headers, which they answer by asking for no body; the 32-bit count of header bytes
  does not wrap below the limit.
- ChunkSizes.ChunkLine.Execute: bodies and the data of chunks are not modelled, since the RTSP user never reads
  them; the line in front of a chunk is modelled by itself.
- RtspParser.MessageParser.OnHeaderField: the URL callback only gathers the URL; the schema, host, port and
  path that it takes from the splitter are not kept.
- RtspServerContext.ServerContext.ProcessRequest: the sequence number (`atoi`), the Transport header (`sscanf`)
  and the answers are text work of the library and of string formatting.
- RtspRoundTrip.RequestRoundTrip: lines end with CR LF, and one space stands in front of a value; the further lines
  of a content length begin with a space. Other line ends and white space are in the automaton only.
- HttpParser.Segmentation: status lines, HTTP versions, and the flags that the values of Connection,
  Transfer-Encoding and Upgrade set are in the automaton, but what they mean is not stated: the user of the
  parser resets it after every message and asks for no body, so that nothing reads them.
- UrlParser.UrlParts.Parse: offsets and lengths are 16-bit in the code, so URLs over 65535 bytes are left out.
- RtmpForward.ClientReceivesWhatTheSinkGave: the client does not switch sound or picture off while it plays, nor
  change streams; the answers of the session have a length that is sent.
- FlvForward.StreamReadsBackExactlyWhen: frames come with the presentation time modulo 2^32 as their timestamp.
- RtmpH264Decoder.Decoder.Write: an access unit whose lengths point outside of it, which the code reads past
  its end, is excluded by a precondition; lengths are below 2^31; a length of zero, on which the code asserts
  afterwards, ends the unit as in a build without assertions.
- RtspH264Encoder.Encoder.Write: the packing into RTP packets is library work; a unit of nothing but zeros, on
  which the code asserts, is skipped as in a build without assertions.
* AAC and Opus encoders, HEVC, GB28181, SDP text, base64, dates, the sink registry, the executor's round robin
  and the timer tasks.
