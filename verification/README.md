# A verified model of the web server's parsers and connection loop

The server is an event-driven HTTP/1.1 server in C++98. This project models, in Dafny, the parts of it in which the
order and the fragmentation of bytes matter, and proves what they guarantee:

- the resumable request parser (request line, headers, Content-Length and chunked bodies) and the connection loop
  that appends what `recv` brings, parses, erases what was consumed, answers and closes;
- the chunk encoder of the Python client that is shipped beside the server, as the other half of a round trip;
- percent-decoding, path normalisation, and the choice of server and location for a request;
- the multipart upload loop;
- the configuration language: in-place rewriting of the text, tokens, recursive-descent parser.

The parts meet in `WrittenDelivery.WrittenRequestDelivered`: from the text of a request, cut up by the network in any way,
to the request that is handed on, with the server and location it is for.

`dafny verify dfyconfig.toml` checks everything.

## How the model is built

Code that the source writes as objects and loops is written here as classes, methods and loops: `RequestParser`,
`ClientServer`, `Parser` and `ResponseBuilder` have the source's fields and update them in place, and every method is
proved equal to a function on the old state. The properties are then lemmas about those functions. The objects are the
code as it is shipped, branch by branch; the functions they are proved against take a rule.

`Chunked.Rule` has two values. `Shipped` is the code. `Repaired` differs in four places in which the code misses what
its own comments and constants say it is for:

1. `find_line_end` is documented to return the end of the line, and its callers take its second answer for "no full
   line yet"; without a CRLF it returns `end - 1`, which they take for a line (srcs/ReqRes/RequestParser.cpp:411-421,
   :369-371). Repaired: a size line needs its CRLF.
2. On the last chunk the size line is dropped before the closing CRLF has arrived, and nothing remembers it (:383-389).
   Repaired: the line stays until the CRLF is there.
3. The loop of `parse_request` never leaves a phase that makes no progress while text is left (:81-103). Repaired: it
   returns to its caller. In the model of the shipped loop such a run ends with the outcome `stalled`, and
   `ParseRequest.StalledForEver` shows that further turns change nothing.
4. An empty request target is refused without an error (:717-719), although an error text for it exists
   (includes/webserv.hpp:100). Repaired: it is a 400.

Where the two rules differ, the project says exactly when: `ChunkTheorems.ShippedAgreesExactly` for one decoder call,
`ChunkTheorems.ShippedInStepExactly` for every delivery to the decoder, `ShippedDelivery.ParseAgreesExactly` for the
first parse of a request, `ShippedDelivery.ConnectionInStepExactly` for every delivery to a connection, and
`ParseRequest.ParseTerminatesExactly` for the endless loop. The conditions look only at received text: `CutsFraming`
says that it ends two or more bytes into a size line whose CRLF has not arrived, or one byte into the CRLF that closes
the last chunk; `LeavesOver` says that it stops the decoder with some of it unread. `ChunkEncoder.CutInsideSizeLine`,
`ChunkEncoder.ClosingNeverSeen`, `Witnesses.CutStartStalls` and `Witnesses.NoTargetStalls` are concrete inputs.

The connection loop handles reads at any time, also while a response is still being sent
(srcs/Server/ClientServer.cpp:110-163). So an error, and the response to it, do not always last: a read that finds a complete header block in the
buffer, such as the one a refused header line leaves there, starts a new request and overwrites the response.
`Connection.FirstErrorLastsExactly` and `Connection.AnswerStandsExactly` give the exact condition over all runs, and
`Witnesses.ErrorReplaced` a concrete run. Nor does an error response always close its connection: keep-alive is asked of
whatever request is in the parser when the last byte is sent, which may be a newer one whose body is still open.
`Connection.ErrorsCloseExactly` says exactly when, and `Witnesses.ErrorOutlived` is a run. And the size check of a read follows `server_config` for every parser that saw
a Content-Length, also for one that was refused before it was routed, whose `server_config` is NULL (:141-144): the model has an
outcome of its own for it, `crashed`, with `Connection.CrashesExactly` and the concrete run `Witnesses.CrashReached`.

Two more places where the code and its intention differ are modelled as the code has them. The multipart loop computes
a length without the CRLF that belongs to the next delimiter and then does not use it
(srcs/ReqRes/ResponseBuilder.cpp:422-428), so saved files end with that CRLF: `Multipart.MultipartRoundTrip` gives both
the shipped result and the round trip with the line end dropped. And the query is split off after normalisation
(srcs/ReqRes/RequestParser.cpp:717-727), so the path properties are stated on the result of normalisation.

Conventions. A byte is a `char` below 256, and a byte from 128 up compares as a negative number, as where `char` is
signed. `strtoul` is modelled exactly (NUL bytes, white space, sign, `0x`, saturation). `size_t` subtraction wraps. The
theorems on fragmentation take the reading of a size line as an arbitrary function. `recv` and `send` are events that
bring or take any number of bytes, `recv` at most 1024 (includes/ClientServer.hpp:11); the response builder, the file
system and the clock are parameters. Exceptions of the configuration parser are `Fail`. The multipart round trip allows
the delimiter inside header blocks, and asks that a header block neither holds an empty line nor ends with a line end,
since such a block has its empty line earlier.

## Model

| member | source | states |
|---|---|---|
| WrittenDelivery.WrittenRequestDelivered | srcs/Server/ClientServer.cpp:126-264 | A request written out with field names in any case, blanks around values, a port or none behind the host, and no body, a Content-Length body or chunks of any sizes, delivered to an idle connection in any pieces, is handed on with its method, path, query, fields and exact body, for the last server that lists the host (or the first) and the first longest block for the path, exactly when the size check on the request before it passes (repaired rule) |
| WrittenDelivery.WrittenRequestShipped | srcs/Server/ClientServer.cpp:126-264 | The shipped connection hands on the same when every read is clean |
| WrittenDelivery.WrittenRead | srcs/ReqRes/RequestParser.cpp:69-409 | Under either rule, one parse of the written text gives the request that was written and leaves nothing |
| ChunkGrammar.FinishedExactly | srcs/ReqRes/RequestParser.cpp:330-409 | Under either rule the decoder finishes exactly on texts that are chunks, each with a line end behind its size line and its data, closed by a line that announces 0 and an empty line; the body is the contents in order and what follows is left |
| ChunkGrammar.RefusedExactly | srcs/ReqRes/RequestParser.cpp:354-389 | The repaired decoder refuses exactly the texts in which, behind whole chunks, a size line is no size, or two other bytes stand where a line end belongs |
| ChunkTheorems.SplitIndependence | srcs/ReqRes/RequestParser.cpp:330-409 | For every decoder state and every partition of a byte stream into reads, append-parse-erase ends with the state, body and unread bytes of one decode of the whole stream (repaired rule; any reader of size lines) |
| ChunkTheorems.ChunksResume | srcs/Server/ClientServer.cpp:191-207 | Stopping anywhere in a chunked body and going on with more bytes equals one decode of both parts (repaired rule) |
| ChunkTheorems.ShippedAgreesExactly | srcs/ReqRes/RequestParser.cpp:369-389 | One call of the shipped decoder does what the repaired one does if and only if the buffer does not end at a bad cut |
| ChunkTheorems.ShippedInStepExactly | srcs/ReqRes/RequestParser.cpp:330-409 | Over any delivery the shipped decoder stands, after every read, where one decode of everything received stands, if and only if no read ends at a bad cut |
| ChunkTheorems.InStepDelivers | srcs/ReqRes/RequestParser.cpp:330-409 | A delivery that keeps in step ends where one decode of the whole stream ends |
| ChunkTheorems.ShortLine | srcs/ReqRes/RequestParser.cpp:411-421 | Without a CRLF the repaired decoder waits, the shipped one waits only on a single byte, and neither finishes |
| ChunkTheorems.LeavesOverExactly | srcs/ReqRes/RequestParser.cpp:348-389 | For every decoder state and buffer, the shipped decoder waits with text left unread exactly when the text has one byte behind a chunk's data or behind the last size line, ends with a size line, or is a size line cut short that reads as 0 |
| ChunkTheorems.FinishedExtends | srcs/ReqRes/RequestParser.cpp:385-401 | A finished chunked body is not changed by what follows it and leaves exactly that unread, under either rule |
| ChunkTheorems.AtRest | srcs/ReqRes/RequestParser.cpp:330-409 | Calling the decoder again without new bytes changes nothing, under either rule |
| ChunkTheorems.CutResume | srcs/ReqRes/RequestParser.cpp:330-409 | Whether received text ends at a bad cut can be read off the decoder's own place in it |
| Chunked.Chunks | srcs/ReqRes/RequestParser.cpp:330-409 | The decoder leaves a suffix of its input and its counters consistent, so the remaining size never underflows |
| Chunked.OneTurn | srcs/ReqRes/RequestParser.cpp:334-406 | A turn that goes on consumes at least one byte, and every turn leaves a suffix and consistent counters |
| ChunkEncoder.SendChunked | send_chunked.py:24-49 | The sender's loop emits the chunks of the data, of at most the chunk size each, and the last chunk |
| ChunkEncoder.DecodeEncode | send_chunked.py:24-49 | Decoding the encoding of any bytes, with any chunk size from 1 to below 2^64, appends exactly those bytes, finishes, and leaves what follows unread, under either rule |
| ChunkEncoder.RoundTripUnderAnySplit | send_chunked.py:24-49 | The sender's stream, cut into reads in any way, decodes to exactly the bytes sent (repaired rule) |
| ChunkEncoder.RoundTripShipped | srcs/ReqRes/RequestParser.cpp:330-409 | The shipped decoder does the same for every split without a bad cut |
| ChunkEncoder.CutInsideSizeLine | srcs/ReqRes/RequestParser.cpp:411-421 | A concrete read that ends inside a size line and makes the shipped decoder take a digit for data |
| ChunkEncoder.ClosingNeverSeen | srcs/ReqRes/RequestParser.cpp:383-389 | A concrete two-read delivery of a complete body that leaves the shipped decoder waiting |
| ChunkEncoder.OutOfStepAndBack | srcs/ReqRes/RequestParser.cpp:369-389 | A concrete delivery after which the shipped decoder is out of step and still ends with the right body |
| Numerals.StrtoulHex | srcs/ReqRes/RequestParser.cpp:374-376 | Reading a size line inverts printing it in lower-case hexadecimal, for every size below 2^64 |
| Numerals.StrtoulDigits | srcs/ReqRes/RequestParser.cpp:295-297 | A non-empty digit string is read as the number it denotes, saturating at 64 bits |
| Numerals.StrtoulExactly | srcs/ReqRes/RequestParser.cpp:374-376 | White space, a sign, in base 16 a `0x`, and digits, up to the end or a NUL byte, are read as the number, saturated, and negated modulo 2^64 behind a minus sign; with anything else behind the digits the text is no number |
| Numerals.StrtoulDec | srcs/ReqRes/RequestParser.cpp:295-297 | Reading inverts printing in decimal, for every number below 2^64 |
| HeaderBlock.HeadersAcceptedExactly | srcs/ReqRes/RequestParser.cpp:138-277 | A header block is accepted if and only if its lines are valid, with at most one Host and agreeing Content-Length values, the map has room before each line, Host is there, not both framings, and one of them for POST; then the phase fixes the framing and the map is the last-write fold over the lines |
| HeaderBlock.FoldExactly | srcs/ReqRes/RequestParser.cpp:143-275 | The line-by-line fold succeeds exactly on good lists of lines, and its accumulators are what the lines say |
| HeaderBlock.EndOfHeadersExactly | srcs/ReqRes/RequestParser.cpp:147-171 | At the empty line BODY needs Host and exactly one framing, DONE needs Host, no framing and no POST, 411 is the POST without framing, 400 everything else, and nothing else of the request changes |
| HeaderBlock.RaiseExactly | srcs/ReqRes/RequestParser.cpp:206-265 | A field raises the flags of its name and is refused exactly when its value is wrong or contradicts an earlier line, with 417 for Expect and 400 otherwise |
| HeaderBlock.RaisedExactly | srcs/ReqRes/RequestParser.cpp:206-216 | Whether or not the block is refused, has_content_length ends raised exactly when a valid Content-Length that agrees with the earlier ones stands behind good lines |
| HeaderBlock.HeadersStop | srcs/ReqRes/RequestParser.cpp:143-171 | The header phase never stops in HEADERS; on success it consumes exactly up to the first empty line |
| HeaderBlock.HeadersExtend | srcs/ReqRes/RequestParser.cpp:138-277 | What follows the empty line has no influence on the header phase |
| Http.BlankAfterLine | srcs/ReqRes/RequestParser.cpp:143-147 | Taking one line off leaves the same first empty line ahead |
| RequestRoundTrip.WellFormedExactly | srcs/ReqRes/RequestParser.cpp:173-204 | A line of bytes passes the checks on it alone exactly when it is a name of letters, digits, `-` and `_`, a colon, and a printable value with any blanks around it, within 8192 bytes with its line end |
| RequestRoundTrip.FieldRead | srcs/ReqRes/RequestParser.cpp:195-204 | Such a line is handled as the field with that name in lower case and the bare value |
| RequestRoundTrip.CaseDoesNotMatter | srcs/ReqRes/RequestParser.cpp:195-204 | Two header blocks whose field names differ only in case give the same request |
| RequestRoundTrip.KeysAreLowerCase | srcs/ReqRes/RequestParser.cpp:195-274 | Whatever the header block, every stored key is in lower case |
| RequestRoundTrip.MapOfLines | srcs/ReqRes/RequestParser.cpp:267-274 | Written fields give the map from lower-cased name to the value written last, in lower case for Expect |
| RequestRoundTrip.HeadRead | srcs/ReqRes/RequestParser.cpp:107-277 | A written request line and fields are read back as method, path, query, version and map, whatever follows |
| RequestRoundTrip.PlainRequestRead | srcs/ReqRes/RequestParser.cpp:69-277 | A written request without a body is read back whole in front of any text, which is left |
| RequestRoundTrip.SizedRequestRead | srcs/ReqRes/RequestParser.cpp:292-325 | A written request that announces its body's length in decimal is read back with exactly that body, and what follows is left |
| RequestRoundTrip.FramedRequestRead | srcs/ReqRes/RequestParser.cpp:330-409 | A written request with any well-framed chunked body is read back with the contents of its chunks, and what follows is left |
| RequestRoundTrip.ChunkedRequestRead | send_chunked.py:24-49 | In particular with the body as the sender encodes it, for every chunk size |
| RequestRoundTrip.SizeLineRead | srcs/ReqRes/RequestParser.cpp:373-381 | A size line of hexadecimal digits in either case with blanks around them announces their value |
| RequestRoundTrip.ZeroLengthRefused | srcs/ReqRes/RequestParser.cpp:299-305 | A request whose Content-Length is 0 or empty is a 400 as soon as a byte follows its header block |
| RequestRoundTrip.OtherCodingRefused | srcs/ReqRes/RequestParser.cpp:283-290 | A request with another transfer coding is a 501 as soon as a byte follows its header block |
| BodyPhase.BodyKeeps | srcs/ReqRes/RequestParser.cpp:280-327 | A call of parse_body keeps the framing, leaves a suffix, and for Content-Length never holds more than the length, so the remaining count does not underflow; DONE means exactly that many bytes |
| BodyPhase.BodyResume | srcs/ReqRes/RequestParser.cpp:280-327 | Stopping anywhere in a body of any framing and going on equals one parse of both parts (for chunked bodies under the repaired rule) |
| BodyPhase.BodyDoneExtends | srcs/ReqRes/RequestParser.cpp:280-327 | A complete body of any framing is not changed by what follows, under either rule |
| BodyPhase.BodyAtRest | srcs/ReqRes/RequestParser.cpp:280-327 | Parsing an open body again without new bytes changes nothing, under either rule |
| ParseRequest.ParseTerminatesExactly | srcs/ReqRes/RequestParser.cpp:69-105 | On every buffer with a complete header block the parse ends in BODY, DONE or ERROR_PARSE with a suffix unread, except that the shipped loop never ends exactly on an empty target and on chunked body text that stops the decoder with some of it left over, both conditions on the buffer |
| ParseRequest.StalledForEver | srcs/ReqRes/RequestParser.cpp:81-103 | The state in which the shipped loop makes no progress repeats for any number of turns |
| ParseRequest.StepProgress | srcs/ReqRes/RequestParser.cpp:81-103 | Every turn of the loop moves to a later phase, or keeps the phase with the same or fewer bytes left |
| ParseRequest.SelfDelimiting | srcs/ReqRes/RequestParser.cpp:69-409 | A request that alone parses to DONE with nothing left parses to the same request in front of any other text, which stays unread: any framing, either rule |
| ParseRequest.ParseResumes | srcs/ReqRes/RequestParser.cpp:69-105 | A parse that has reached the body goes on as one parse of everything received would |
| ParseRequest.DriveIs | srcs/ReqRes/RequestParser.cpp:69-105 | The whole loop on a new parser is request line, then headers, then at most one effective call on the body |
| ParseRequest.RequestLineStops | srcs/ReqRes/RequestParser.cpp:107-135 | The request line phase stays in place exactly on an empty target of the shipped code; otherwise it logs an error or moves on, with the same empty line ahead that the caller searched for |
| ParseRequest.RequestLineExactly | srcs/ReqRes/RequestParser.cpp:107-135 | A request line is accepted if and only if it has three parts, a known method, a target that decodes and normalises to a rooted path within the length limit, and version HTTP/1.1; path and query are the two sides of the first question mark; 501, 414 and 505 each have their own exact cause |
| ParseRequest.UriExactly | srcs/ReqRes/RequestParser.cpp:693-745 | The same for the target alone: accepted exactly when legal, not refused, rooted and short enough; 414 exactly when only too long |
| ParseRequest.PlainTargetRead | srcs/ReqRes/RequestParser.cpp:693-727 | A target without percent signs whose text is canonical is taken as it stands, query included, up to its fragment |
| ParseRequest.LegalTargetExactly | srcs/ReqRes/RequestParser.cpp:697-712 | A target of bytes is legal exactly when it is printable ASCII without spaces and nine listed signs |
| ParseRequest.RefusedWithLengthExactly | srcs/ReqRes/RequestParser.cpp:69-327 | The first parse fails with its Content-Length seen exactly on those buffers, by a condition on their lines |
| ParseRequest.HeadExactly | srcs/ReqRes/RequestParser.cpp:107-277 | Request line and headers together succeed exactly when the first line is good and the field lines are accepted, and the Content-Length flag is raised exactly when a valid one stands behind good lines |
| ParseRequest.MethodExactly | srcs/ReqRes/RequestParser.cpp:680-692 | Accepted exactly for GET, POST and DELETE, 501 for the other standard methods, 400 for the rest, and only the method changes |
| ParseRequest.VersionExactly | srcs/ReqRes/RequestParser.cpp:746-758 | Accepted exactly for HTTP/1.1, 505 for the two older versions, 400 for the rest |
| RequestParsers.FindLineEnd | srcs/ReqRes/RequestParser.cpp:411-421 | The loop returns the offset past the first CRLF and, without one, the last byte |
| RequestParsers.RequestParser.Run | srcs/ReqRes/RequestParser.cpp:69-105 | The loop over the phases terminates, and the object and the offset it returns are those of the function on its old value |
| RequestParsers.RequestParser.ParseRequestLineAt | srcs/ReqRes/RequestParser.cpp:107-135 | Object and offset after the request line |
| RequestParsers.RequestParser.ParseHeadersAt | srcs/ReqRes/RequestParser.cpp:138-277 | Object and offset after the header loop, which stays on complete lines up to the empty one |
| RequestParsers.RequestParser.StoreField | srcs/ReqRes/RequestParser.cpp:173-274 | The checks of one field line, in the source's order, and its storing |
| RequestParsers.RequestParser.ParseBodyAt | srcs/ReqRes/RequestParser.cpp:280-327 | Object and offset after a call on the body |
| RequestParsers.RequestParser.ReadSized | srcs/ReqRes/RequestParser.cpp:292-325 | The Content-Length branch, with wrapping subtraction |
| RequestParsers.RequestParser.ParseChunkedBody | srcs/ReqRes/RequestParser.cpp:330-409 | The decoder loop terminates, with the decoder's outcome written into the fields |
| RequestParsers.RequestParser.ReadChunkData | srcs/ReqRes/RequestParser.cpp:335-366 | One turn inside chunk data |
| RequestParsers.RequestParser.ReadSizeLine | srcs/ReqRes/RequestParser.cpp:368-406 | One turn on a size line, with the last chunk |
| RequestParsers.RequestParser.LogErrorCode | srcs/ReqRes/RequestParser.cpp:546-563 | The first error is kept, closes the connection, and moves to ERROR_PARSE |
| RequestParsers.RequestParser.SetRequestUri | srcs/ReqRes/RequestParser.cpp:693-745 | The checks of the target, its decoding and the query, in the source's order |
| RequestParsers.RequestParser.MatchLocation | srcs/ReqRes/RequestParser.cpp:590-644 | Server and location found by the loops, and a 404 exactly when there is no location |
| Uri.DecodePercentEncoding | srcs/ReqRes/RequestParser.cpp:472-509 | The decoding loop equals the recursive decoder |
| Uri.DecodeEncode | srcs/ReqRes/RequestParser.cpp:472-509 | Decoding inverts percent-encoding of any byte string, and is refused exactly when a NUL byte is in it |
| Uri.DecodePlain | srcs/ReqRes/RequestParser.cpp:472-509 | Text without a percent sign is left alone |
| Uri.DecodeWritten | srcs/ReqRes/RequestParser.cpp:472-509 | Any mixture of plain characters and escapes, with digits in either case, decodes to the bytes it stands for, and is refused exactly when an escaped NUL is among them |
| Uri.DecodeStray | srcs/ReqRes/RequestParser.cpp:480-500 | A percent sign with fewer than two characters behind it stands for itself, and with two that are not both digits it is refused |
| Uri.NormalizeUri | srcs/ReqRes/RequestParser.cpp:424-469 | Decode, split, stack loop and printing loop together equal folding the segments over a stack |
| Uri.WalkSegments | srcs/ReqRes/RequestParser.cpp:436-455 | The loop that pushes and pops a vector equals the fold, also when it refuses early |
| Uri.PrintParts | srcs/ReqRes/RequestParser.cpp:457-468 | The printing loop gives the stack's text with or without a trailing slash |
| Uri.NormalizeCanonical | srcs/ReqRes/RequestParser.cpp:424-469 | An absolute path that is not refused comes out rooted, without empty, `.` or `..` segments, no longer, with its trailing slash kept when segments remain, and as a fixed point |
| Uri.RefusedExactlyAboveRoot | srcs/ReqRes/RequestParser.cpp:436-455 | An absolute path is refused if and only if some prefix of its segments has more `..` than ordinary names |
| Uri.StruckOut | srcs/ReqRes/RequestParser.cpp:436-455 | Anywhere in an absolute path an empty segment, a dot, or an ordinary name with two dots right behind it can be struck out without changing the result or the refusal |
| Uri.EndStruckOut | srcs/ReqRes/RequestParser.cpp:436-468 | At the end of a path the two dots take the name in front of them and leave no trailing slash |
| Uri.CanonicalKept | srcs/ReqRes/RequestParser.cpp:424-469 | A path that is canonical already is returned unchanged |
| Uri.RelativeExactly | srcs/ReqRes/RequestParser.cpp:424-469 | A path without a leading slash is refused exactly when two dots are in it; otherwise its names come out in order, and as the root exactly when there are none |
| Routing.NormalizePath | srcs/ReqRes/RequestParser.cpp:565-587 | The slash-collapsing loop equals the recursive collapse |
| Routing.CollapseExactly | srcs/ReqRes/RequestParser.cpp:565-587 | The result has no double slash, is no longer, is a fixed point, equals the input exactly when that had none, and keeps the non-empty segments in order and the slash, or none, at either end |
| Routing.SearchLocation | srcs/ReqRes/RequestParser.cpp:616-643 | The search with its early exit equals the plain argmax over all locations |
| Routing.BestIsLongest | srcs/ReqRes/RequestParser.cpp:616-643 | The argmax is the first of the longest candidate prefixes, and there is none exactly when no path is a candidate |
| Routing.ExactEndsSearch | srcs/ReqRes/RequestParser.cpp:616-643 | Nothing behind an exact match can beat it |
| Routing.OrderDoesNotMatter | srcs/ReqRes/RequestParser.cpp:616-643 | Permuting locations with distinct collapsed paths does not change the location chosen |
| Routing.SearchServer | srcs/ReqRes/RequestParser.cpp:592-614 | The loop picks the last server that lists the host name, or the first server |
| Connection.RoutedExactly | srcs/ReqRes/RequestParser.cpp:590-644 | With or without a port behind the host name, the server is the last that lists the name, or the first; the location is the first longest one, slashes collapsed, among that server's own; without one the request becomes a 404 and nothing else of it changes |
| Connection.Run | srcs/Server/ClientServer.cpp:110-478 | Every connection reached by any sequence of reads, closes and partial writes, also reads and closes while a response is outstanding, keeps the invariant: bytes conserved on both sides, ERROR_PARSE exactly with an error code, a Content-Length body never longer than its length and exactly that long when done |
| Connection.BytesConserved | srcs/Server/ClientServer.cpp:139-201 | Over every run from its opening, bytes received are bytes consumed followed by the buffer, and the response built last is bytes sent followed by bytes left, or was sent whole |
| Connection.StepSound | srcs/Server/ClientServer.cpp:126-478 | Each event keeps that invariant |
| Connection.ReceiveSound | srcs/Server/ClientServer.cpp:126-264 | So does each read, with its checks, parse and routing |
| Connection.FirstErrorLastsExactly | srcs/Server/ClientServer.cpp:110-264 | Over every run, a connection that holds an error and is still served holds that same error with nothing else handed on if and only if no read found a complete header block in the buffer |
| Connection.AnswerStandsExactly | srcs/Server/ClientServer.cpp:430-453 | While sends have not taken all of an outstanding response, it stays the answer to the parser's request if and only if no read found a complete header block, and then its bytes sent and left are conserved |
| Connection.SendExactly | srcs/Server/ClientServer.cpp:399-478 | A send moves exactly the bytes it takes; the connection goes on exactly when it took some in time and either some are left or the request does not say `Connection: close`; a response that ends was sent whole |
| Connection.CrashesExactly | srcs/Server/ClientServer.cpp:139-149 | A read or a close follows a NULL server_config exactly when the parser saw a Content-Length and was never routed, and such a parser holds an error |
| Connection.NullServerExactly | srcs/Server/ClientServer.cpp:241-263 | A first parse leaves such a parser exactly on a buffer whose request line is good and whose field lines are refused behind a valid Content-Length, or whose Content-Length is zero with some of a body behind the header block |
| Witnesses.ErrorReplaced | srcs/Server/ClientServer.cpp:110-264 | A concrete run, with the 417 partly sent, in which one more byte replaces it by a 400 and hands on a second request |
| Witnesses.ErrorOutlived | srcs/Server/ClientServer.cpp:110-478 | A concrete run in which a 400 is sent whole and the connection stays open |
| Witnesses.BoundBroken | srcs/Server/ClientServer.cpp:139-163 | A concrete run in which a body left in the buffer behind an error and the next 1024 bytes break the buffering bound |
| Witnesses.CrashReached | srcs/Server/ClientServer.cpp:110-149 | A concrete run of two reads, with a send between them, that follows a NULL server_config |
| Witnesses.CutStartStalls | srcs/ReqRes/RequestParser.cpp:81-103 | A concrete first buffer, cut inside a size line, on which the shipped loop never ends |
| Witnesses.NoTargetStalls | srcs/ReqRes/RequestParser.cpp:717-719 | A concrete request line without a target on which the shipped loop never ends |
| Connection.ErrorsCloseExactly | srcs/Server/ClientServer.cpp:455-478 | Over every run, when the rest of an error response is sent and no other request was handed on meanwhile, the connection is closed, unless a read found a complete header block behind the error and put an unfinished request that allows keep-alive in its place; then it stays open with the whole error response sent |
| Connection.CleanUpNeverTaken | srcs/Server/ClientServer.cpp:465-472 | A parser that holds an error is never kept alive, so the clean-up branch for it is never taken |
| Delivery.DeliveredExactly | srcs/Server/ClientServer.cpp:126-264 | From an idle connection, an accepted request cut into reads in any way is handed on with the method, URI, query, headers and body of its one-piece parse, if and only if the request before it was within the size limit and no read follows part of an oversized body; otherwise the connection is closed with nothing handed on |
| Delivery.SplitDoesNotMatter | srcs/Server/ClientServer.cpp:126-264 | Within the size limit any two partitions hand on the same request and response, or both close the connection because the request before was oversized |
| Delivery.RefusedFirst | srcs/Server/ClientServer.cpp:126-264 | A request refused in its request line or headers, cut into reads in any way, is first handed on with the error and fields of its one-piece parse |
| Delivery.BodiesStayBoundedExactly | srcs/Server/ClientServer.cpp:139-163 | Over whole runs with any number of requests, a Content-Length body never exceeds its length nor the larger of the limit and 1024, at any point, if and only if every request the run starts keeps that by its length or by the text that came with its header block |
| Delivery.BodiesStayBounded | srcs/Server/ClientServer.cpp:139-163 | In particular when every request begins in a buffer without a complete header block, for example an empty one |
| Delivery.BoundedFromTheStart | srcs/Server/ClientServer.cpp:139-163 | The same for every run of a new connection |
| ShippedDelivery.BodyAgreesExactly | srcs/ReqRes/RequestParser.cpp:280-409 | A call on the body follows the repaired rule exactly when a chunked body does not end at a bad cut |
| ShippedDelivery.ParseAgreesExactly | srcs/ReqRes/RequestParser.cpp:69-105 | The first shipped parse of a request has the repaired outcome exactly on a clean start |
| ShippedDelivery.ReadAgreesExactly | srcs/Server/ClientServer.cpp:126-264 | A read that is not refused and completes no refused header block is taken by the shipped connection as by the repaired one exactly when it is clean |
| ShippedDelivery.ConnectionInStepExactly | srcs/Server/ClientServer.cpp:126-264 | While it receives an accepted request within the limit, chunked included, cut in any way, the shipped connection stands after every read where the repaired one stands if and only if every read that is not refused as too large is clean |
| ShippedDelivery.ShippedDelivers | srcs/Server/ClientServer.cpp:126-264 | So, when every read is clean, it hands on any such request as its one-piece parse reads it, exactly when the request before it was within the size limit |
| ClientServers.ClientServer.HandleIncomingData | srcs/Server/ClientServer.cpp:126-137 | The object after a read at any time is the receiving step on its old value, and stays sound |
| ClientServers.ClientServer.ReadIncomingData | srcs/Server/ClientServer.cpp:139-163 | The size check with its unguarded pointer, the failing read and the appended bytes |
| ClientServers.ClientServer.IsParsingRequestBody | srcs/Server/ClientServer.cpp:191-214 | Parse and erase while the body is open, hand on when it is complete or wrong |
| ClientServers.ClientServer.ParseHeaders | srcs/Server/ClientServer.cpp:241-264 | A new parser on the whole buffer, what it consumed erased, routed if it has no error |
| ClientServers.ClientServer.ProcessRequestHeaders | srcs/Server/ClientServer.cpp:216-239 | Nothing happens before the first empty line is there |
| Multipart.MultipartRoundTrip | srcs/ReqRes/ResponseBuilder.cpp:394-462 | For any list of good parts the loop takes exactly those parts in order, each content with the CRLF before the delimiter, so that dropping it gives the parts back; as shipped it gives them back only when there are none |
| Multipart.PartsOfCompose | srcs/ReqRes/ResponseBuilder.cpp:394-428 | The same from any search position at which the composed text starts |
| Multipart.UploadSaves | srcs/ReqRes/ResponseBuilder.cpp:382-465 | When every part names a usable file and can be written, the saved files are the contents, in order, each once, each under the path made from its own name, each with that CRLF |
| Multipart.EachPartSavedOnce | srcs/ReqRes/ResponseBuilder.cpp:430-462 | Saving keeps number and order, and gives each part's content the path made from that part's name |
| Multipart.FileNameExactly | srcs/ReqRes/ResponseBuilder.cpp:430-447 | A quoted file name is taken if and only if it is not empty and has neither `/` nor `..`, and then it is taken unchanged |
| Multipart.UploadRead | srcs/ReqRes/ResponseBuilder.cpp:382-465 | For a Content-Type that ends in its first `boundary=` and a body written with two hyphens and that boundary, the saved files are the parts |
| Multipart.PartTakenExactly | srcs/ReqRes/ResponseBuilder.cpp:394-428 | In any body at all, a turn takes a part exactly when the next delimiter opens one whose headers end in an empty line and whose content ends at a delimiter, and it takes exactly those |
| Multipart.NextPart | srcs/ReqRes/ResponseBuilder.cpp:394-428 | The search position strictly advances and stays in the body |
| Multipart.ResponseBuilder.HandleMultipartFormData | srcs/ReqRes/ResponseBuilder.cpp:382-465 | The object after the loop: files saved, status and Location, and the refusal without a boundary |
| ConfigText.SanitizeInput | srcs/ParseConf/Tokenize.cpp:10-31 | The scan that grows its own string terminates and equals a rewrite that looks only at the original previous character |
| ConfigText.RewriteTwice | srcs/ParseConf/Tokenize.cpp:10-31 | Rewriting twice gives the same words as rewriting once |
| ConfigText.Tokenize | srcs/ParseConf/Tokenize.cpp:33-184 | The stream loop terminates and gives the tokens of the rewritten text, or refuses a negative number |
| ConfigText.TokensAreWords | srcs/ParseConf/Tokenize.cpp:40-184 | Without comments the tokens are the classified words, with END at the end |
| ConfigParser.Parser.Consume | srcs/ParseConf/Parser.cpp:5-12 | The index moves by one on the expected token, or not at all; END stays in front of it |
| ConfigParser.Parser.ParseConfig | srcs/ParseConf/Parser.cpp:349-355 | Every block consumes tokens or fails, no call passes END, and the servers added are those of the token list |
| ConfigParser.Parser.ParseServerBlock | srcs/ParseConf/Parser.cpp:334-347 | One server appended with its directives applied |
| ConfigParser.Parser.ParseServerBody | srcs/ParseConf/Parser.cpp:334-347 | The loop over directives terminates and changes the last server only |
| ConfigParser.Parser.ParseLocationBody | srcs/ParseConf/Parser.cpp:226-298 | The loop over location directives terminates and consumes a token each turn or fails |
| ConfigParser.Parser.ParseLocationBlock | srcs/ParseConf/Parser.cpp:226-298 | The location is appended to the current server |
| ConfigParser.Parser.ParseListenDirective | srcs/ParseConf/Parser.cpp:40-51 | Port and host of the current server |
| ConfigParser.Parser.ParseServerNameDirective | srcs/ParseConf/Parser.cpp:53-64 | One or more names |
| ConfigParser.Parser.ParseErrorPageDirective | srcs/ParseConf/Parser.cpp:66-83 | Every code gets the page |
| ConfigParser.Parser.ParseRedirectDirective | srcs/ParseConf/Parser.cpp:121-145 | The optional status code, 302 without one |
| ConfigParser.Parser.ParseClientMaxBodySizeDirective | srcs/ParseConf/Parser.cpp:155-165 | Number times unit |
| ConfigParser.Parser.ParseCgiDirective | srcs/ParseConf/Parser.cpp:167-204 | on or off, and the path lines behind it |
| ConfigParser.Parser.ParseReturnDirective | srcs/ParseConf/Parser.cpp:206-224 | Code and message words joined by single spaces |
| ConfigRoundTrip.ConfigRoundTrips | srcs/ParseConf/Parser.cpp:349-355 | Printing any list of well-formed servers as text, then rewriting, tokenising and parsing it, gives the same list |
| ConfigRoundTrip.ConfigBack | srcs/ParseConf/Parser.cpp:226-355 | Parsing the printed tokens gives the list back |
| ConfigForms.ConfigRoundTripsAnyCase | srcs/ParseConf/Tokenize.cpp:24-30 | The round trip holds for every way of choosing the case of the unit letters behind digits |
| ConfigForms.SizeFromText | srcs/ParseConf/Parser.cpp:85-119 | For every number up to INT_MAX and a unit in either case, the text of a size line is read as that many units of 1024, 1024^2 or 1024^3 bytes |
| ConfigForms.LoneUpperUnit | srcs/ParseConf/Parser.cpp:85-119 | An upper-case unit with a space in front of it counts for nothing |
| ConfigForms.SeveralCodes | srcs/ParseConf/Parser.cpp:66-83 | One error_page line gives all its codes the page |
| ConfigForms.PagesAdded | srcs/ParseConf/Parser.cpp:66-83 | And changes the page of no other code; codes are kept as shorts |
| ConfigForms.RedirectWithoutCode | srcs/ParseConf/Parser.cpp:121-145 | A redirect without a code is a 302 and not permanent |
| ConfigForms.BareServer | includes/ConfigManager.hpp:13-62 | A server block without directives has the default port, host, name and size limit |
| ConfigForms.BareLocation | includes/ConfigManager.hpp:13-62 | A location block without directives has the default methods and index and nothing else |
| ConfigForms.CommentsDoNotMatter | srcs/ParseConf/Tokenize.cpp:42-47 | A comment, on a line of its own or behind other words, does not change what is read, whatever stands around it |
| ConfigForms.NegativeRefused | srcs/ParseConf/Tokenize.cpp:165-172 | A negative number outside a comment makes the configuration refused |
| ConfigForms.PlainWordExactly | srcs/ParseConf/Tokenize.cpp:10-180 | The words the round trip is about are exactly those without spaces, delimiters and units behind digits that are no keyword, unit, number or comment mark |
| ConfigGrammar.AcceptedExactly | srcs/ParseConf/Parser.cpp:226-355 | The parser accepts exactly the token lists of a grammar of server blocks, location blocks and their lines, with `on` or `off` behind every `cgi` |
| ConfigGrammar.ReadExactly | srcs/ParseConf/Parser.cpp:226-355 | So a text is read exactly when its words can be classified and their kinds are in that grammar |
| ConfigRoundTrip.TokensOfRender | srcs/ParseConf/Tokenize.cpp:33-184 | Rewriting and tokenising the printed text of printable tokens gives those tokens and END |
| ConfigRoundTrip.SizeBack | srcs/ParseConf/Parser.cpp:85-119 | A printed body size is read back as number times unit, and stays below 2^61 because the number fits an int |
| ConfigRoundTrip.DecIsNumber | srcs/Utils/Utils.cpp:56-63 | A printed number is a NUMBER token with its value |
| Text.SplitLoop | srcs/Utils/Utils.cpp:5-18 | The loop from delimiter to delimiter equals the recursive split |
| Text.SplitTerminated | srcs/Utils/Utils.cpp:5-18 | Splitting inverts writing each piece with a closing delimiter |
| Text.TerminatedSplit | srcs/Utils/Utils.cpp:5-18 | Splitting loses nothing but a closing delimiter |
| Text.TrimCore | srcs/Utils/Utils.cpp:20-27 | Trimming removes exactly the padding around a core |
| Text.IsNumericLoop | srcs/Utils/Utils.cpp:29-37 | True exactly when every character is a digit, also for the empty string |

## Left out

- CGI jobs: processCGIRequest, its process lifetime and checkCGIProgress depend on kernel events; a completed request goes to the response builder.
- Sockets, epoll and the listener map: represented by events of any fragment size.
- Interim and 413 responses: that 100-continue was sent is a flag; the bytes of both are not modelled, the 413 only closes the connection.
- Time: the timeout is an event; timestamps in upload names are a parameter.
- Response building other than multipart uploads: tables, pages and file access.
- Exceptions of the connection loop: nothing in the modelled calls throws.
- `listen host:port`: such a word is a STRING where the parser demands a NUMBER, so that branch cannot be reached.
- Text encoding in the sender: the data is a byte string; for text outside ASCII the Python code announces characters and sends bytes.
- Transfer codings other than chunked, chunk extensions and trailers: the code refuses them, and so does the model.
- Memory: allocation failures and the sizes of buffers beyond the body bound.
- WrittenDelivery.WrittenRequestDelivered: stated for the repaired rule; WrittenDelivery.WrittenRequestShipped says what the shipped one needs.
- ChunkGrammar.RefusedExactly: stated for the repaired rule; the shipped decoder may also refuse a size line whose end has not arrived, which is a bad cut (ChunkTheorems.ShippedAgreesExactly).
- Delivery.DeliveredExactly: for chunked framing it is stated for the repaired rule; for the shipped rule see ShippedDelivery.ConnectionInStepExactly.
- ShippedDelivery.ShippedDelivers: clean reads are what it takes to be right after every read; ChunkEncoder.OutOfStepAndBack shows that a decoder out of step may still come to the right end.
- Delivery.BodiesStayBounded: covers Content-Length bodies; the code has no bound on chunked bodies.
- ConfigRoundTrip.ConfigRoundTrips: body sizes are multiples of 1024 since a unit is mandatory, error pages written inside a location are dropped by the code. Forms the printer does not choose are in ConfigForms.
