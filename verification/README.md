# alphahttpd: verification model

This project models the parts of the alphahttpd web server in which data, state and time meet, and
proves what they are for:

- **A client connection** (`src/http`): the engine that moves a cursor over the chain of ten
  built-in filters, forward and back, suspends when a filter waits, restarts on pipelined data, and
  the filters themselves with the references they pass to each other into the buffers they reuse.
  `Chain` is the connection as a value, `Client` the object whose methods update it in place,
  `ChainInv` the invariant, `ChainReceive` to `ChainLog` the proof that each filter keeps it,
  `ChainRun` and `ChainTheorems` what follows for whole connections. `ChainAnswer` says which response
  a request and the answers to its calls call for, `ChainAnswerSteps` and `ChainAnswerRun` prove that
  it is the one given, and `ChainResponses` and `ChainVerdict` what that means for the client and for
  when a connection waits and ends. Of the methods of `Client`, the table names those with loops or
  several branches; the others carry out one function of `Chain` each.
- **HTTP/1 codecs** (`src/util/http1.h`): the incremental parsers of request lines, header lines and
  response lines, the writers, the chunked coding, URL escaping and the URL splitter
  (`Http1`, `Http1Parsers`, `Http1Writers`, `Chunked`, `Url`), and the request parser that runs on
  the receive buffer again and again (`Request`), with what a request says (`RequestText`).
- **Addresses** (`src/util/ipaddr.h`, `src/cmd.h`): `IpAddr4`, `IpAddr6`, `ListenAddress`.
- **Server protocols**: the pool of connection slots (`Server`), the shutdown of the kernel-call
  workers (`Kcq`).
- **Light config and content types** (`src/util/ltconf.h`, `src/http/file.h`): `LtConf`,
  `LtConfEscape`, `ContentTypes`.

Every method is proved equal to a function, or to a statement in terms of a grammar that does not
mention the code; the lemmas are about those functions. `Bytes` holds the primitives.

## What is taken as given

The outside world answers each call with any of its possible answers: a receive, a read or a send
may transfer any amount that fits, suspend, or fail (`Chain.Env`). The amounts are limited in one
way: a send of a non-empty vector that succeeds accepts at least one byte, and a read before the end
of the file returns at least one. File contents do not change between open and end; the size that
the file system reports is unrelated to them. Memory is always available, and
when a client starts, attaching its socket to the kernel queue succeeds.

`GoodConf` says what is asked of a configuration: a receive buffer of 1 to 65535 bytes, a response
buffer of at least two bytes, a request limit below 65536 (zero stands for the wrap-around of the
16-bit counter), and a file buffer that holds the document root, a path as long as the receive
buffer, the index file name and a zero byte. Path normalization is any function that does not make a
path longer.

The library functions outside the repository mean the following: `ffs_skip_ranges`, `ffs_findany`
and `ffmem_findbyte` give the index of the first stop byte, or -1; `ffs_fromint` writes digits without
leading zeros, hexadecimal ones in lower case, and nothing when they do not fit; `ffchar_tohex` gives
the value of a digit of either case, or -1; `_ffs_copycz` copies what fits; `ffs_format_r0` writes
nothing when the text does not fit; `ffiovec_array_shift` drops bytes from the front of the vector;
`ffstr_erase_left` keeps what follows the erased prefix; `ffmap_find` returns one of the values whose
key matches.

A pointer into a buffer is a reference to a memory, an offset and a length, and stands for the bytes
that the memory holds at the moment it is read. An exact byte stream in spite of reused buffers
therefore includes that no buffer is overwritten too early.

## Model

| member | source | states |
|---|---|---|
| `ChainResponses.Statuses` | src/http/file.h:9-217 | For every finished exchange, an if-and-only-if for each status (200, 301, 304, 400, 403, 404, 405, 500) in terms of the request's text and the answers to the calls, its message, and which calls are made with which file name |
| `ChainResponses.Heads` | src/http/response.h:21-58 | What the head says: length, type, modification time and Location as the request and the answers give them, the server name, and keep-alive exactly when the request asks for it |
| `ChainResponses.HeadRecorded` | src/http/response.h:21-58 | In every state in which the head is built, its fields are those of the response, the server name and the keep-alive flag |
| `ChainResponses.Framing` | src/http/send.h:31-61 | In every run, for every choice of read sizes, partial sends and suspensions, the socket accepted for each completed response exactly its head and body, in order, once: nothing behind the head when the request's method is HEAD and names a file, the file for GET when the contents are as long as announced, and otherwise the status message or the listing, of exactly the announced length |
| `ChainResponses.EveryExchange` | src/http/client.c:108-117 | Every finished exchange has a request that asks for something, or was rejected, and the calls made for it |
| `ChainResponses.KeptOrClosed` | src/http/client.c:108-117 | When the entry of a response is written, the connection is closed exactly when the response announced so or was the last allowed; otherwise the next request starts with exactly the bytes behind this one |
| `ChainResponses.KeptAsAnnounced` | src/http/client.c:108-117 | In every outcome each response that is followed by another, or whose connection is open, announced keep-alive; one that announced the end is the last; and there are never more than allowed |
| `ChainResponses.EndsWithResponse` | src/http/client.c:108-117 | A connection that ends with a response has had all its requests, or the request did not ask to keep it, or was rejected |
| `ChainVerdict.EveryRound` | src/http/client.c:159-209 | In every state of every run, exactly which answers end the connection and exactly which make it wait |
| `ChainVerdict.RunOrderly` | src/http/receive.h:27-60 | The receive and send timers run exactly while the socket is waited for, and an ended connection has closed its file |
| `ChainVerdict.LoopVerdict` | src/http/send.h:37-56 | The send loop goes on until everything is sent or a send is not accepted, and fails or waits accordingly |
| `ChainAnswerRun.RunTold` | src/http/client.c:159-209 | Every finished exchange is the one that the request and the answers call for, and the current one is as far decided as they decide it |
| `ChainAnswerSteps.FileProcessTold` | src/http/file.h:164-252 | Each call of the file filter leaves status, fields and file as its answers decide, from all three states |
| `ChainAnswerSteps.FileFirst` | src/http/file.h:9-38 | Who is declined, who gets 405, and under which name the file is opened |
| `ChainAnswerSteps.RedirectTold` | src/http/file.h:49-64 | The Location is "http://", the Host, the path and a slash, whole |
| `ChainAnswerSteps.IndexSays` | src/http/index.h:7-50 | The index name is appended exactly to a path that ends with a slash, when the file is found |
| `ChainAnswerSteps.AutoSays` | src/http/autoindex.h:7-81 | Status, length and text of a directory's answer |
| `ChainAnswerRun.StepSays` | src/http/client.c:162-205 | Every step before the last filter leaves the response as far decided as it is called for |
| `ChainResponses.FileLength` | src/http/transfer.h:20-31 | A file's body has the announced length exactly when the reads total at least that much and only the last of them reached it; later reads pass unclamped |
| `ChainResponses.FileBody` | src/http/transfer.h:20-31 | Which bytes the body of a file has, for all sizes of reads: it is the file exactly when the read that reaches the announced size does not go beyond it; otherwise the bytes beyond are missing, what later reads gave follows, and the body is a prefix of the file exactly when those happen to repeat the missing bytes |
| `ChainResponses.PeerReads` | src/http/response.h:21-69 | A peer that parses the accepted bytes of any response whose head fits gets the status and its message, exactly the fields Content-Length, Location, Last-Modified, Content-Type, Server and Connection with the values of the response, and then exactly the body (RFC 9112 section 6.2) |
| `ChainTheorems.SentSoFar` | src/http/send.h:37-56 | At every moment what was accepted is a prefix of head and file |
| `ChainResponses.CompletedOk` | src/http/client.c:108-117 | No run fails the assertion; at most the configured number of responses is completed on a connection, the last one before it closes included |
| `ChainTheorems.BackPressure` | src/http/file.h:237-252 | Whenever the file filter is called or waits, no unsent vector element and no pending output refers to its buffer |
| `ChainTheorems.AnsweredInOrder` | src/http/request.h:15-25 | In every outcome, closed connections included, the requests answered are consecutive slices from the front of the received bytes, none dropped or used twice, and the first requests of the stream; only the last answer may be to malformed bytes, which then follow all complete requests |
| `ChainTheorems.NothingDropped` | src/http/request.h:15-21 | As long as the connection is open, the requests answered and the buffer together are all that was received |
| `ChainTheorems.NoCutEnds` | src/http/request.h:27-43 | On a stream of requests with eight-byte versions the request filter asks for more exactly until the last byte of the next request has arrived, and then takes exactly that request, with the verdict and fields it has on its own; no cut has it rejected, and the buffer runs full only on a request that does not fit it |
| `ChainTheorems.AnsweredOfStream` | src/http/client.c:159-209 | In every outcome of every run on such a stream the requests answered are its first ones |
| `ChainTheorems.AllHandled` | src/http/receive.h:27-60 | When a connection waits for data, every complete request received was handled |
| `ChainTheorems.CutsDoNotMatter` | src/http/client.c:94-106 | Two connections on the same stream, cut in any way, have answered the same requests, or one of them the first of the other's, closed or not; and the same ones when both wait after the same bytes, whatever these are |
| `ChainTheorems.RequestFromStream` | src/http/request.h:48-128 | The request being answered is what one parse of any longer stream gives, unless the buffer ended inside an over-long version token |
| `ChainTheorems.FilterOrder` | src/http/client.c:130-157 | In every reachable state all filters before the cursor were entered, none was opened twice for a request, and at the send filter the response is done or the file is still being produced |
| `ChainTheorems.ClosedOnce` | src/http/client.c:73-92 | However a connection ends, every opened filter was closed exactly once and both timers are off |
| `ChainTheorems.RedirectLocation` | src/http/file.h:49-64 | The Location made from a parsed Host and path is always a value without line ends and outer spaces |
| `ChainRun.StepGood` | src/http/client.c:162-205 | Every round of the loop keeps the invariant and makes the measure smaller, or waits at the same filter with the invariant, or ends the connection properly |
| `ChainRun.StartInv` | src/http/client.c:23-71 | A new connection satisfies the invariant |
| `ChainRun.DestroyEnds` | src/http/client.c:83-92 | Destroying a connection at any moment closes everything that is open |
| `ChainRun.RunInv` | src/http/client.c:159-209 | The invariant holds after every run; going back from the first filter never happens |
| `ChainRun.Processed` | src/http/client.c:159-209 | The loop ends for all answers: it waits in a state of the invariant or has ended the connection |
| `ChainRun.ProcessedIsRun` | src/http/client.c:159-209 | What the loop makes of a state of a run is again an outcome of a run |
| `ChainReceive.StepRecv` | src/http/receive.h:22-61 | The receive filter keeps the invariant: received bytes are the finished requests and the buffer |
| `ChainReceive.StepReq` | src/http/request.h:27-43 | The request filter keeps the invariant: an incomplete request leaves its parser's state as one attempt would, a complete one is taken, a full buffer ends the connection |
| `ChainServe.StepIndex` | src/http/index.h:7-50 | The index filter keeps the invariant |
| `ChainServe.StepAuto` | src/http/autoindex.h:7-81 | The directory filter keeps the invariant; its listing has the announced length |
| `ChainFile.FileMakes` | src/http/file.h:219-252 | In each of its states a call of the file filter yields the next non-empty part of the contents, their end, a final answer, or waits with nothing lost |
| `ChainFile.StepFile` | src/http/file.h:9-252 | The file filter keeps the invariant, from every state and for all answers of its three calls |
| `ChainRespond.StepBack` | src/http/client.c:152-155 | On the way back to the file filter nothing changes but the cursor |
| `ChainRespond.StepError` | src/http/error.h:6-24 | The error filter keeps the invariant; the error text has the announced length |
| `ChainRespond.TransAmount` | src/http/transfer.h:25-29 | What the countdown lets through, and when it is done, is what the clamp of all inputs so far says |
| `ChainRespond.StepTrans` | src/http/transfer.h:6-31 | The transfer filter keeps the invariant, clamped or done |
| `ChainRespond.StepResp` | src/http/response.h:6-70 | The response filter keeps the invariant: head and first body part are queued, none of it lost |
| `ChainSend.StepSend` | src/http/send.h:22-62 | The send filter keeps the invariant for every sequence of partial sends |
| `ChainLog.NextRequests` | src/http/request.h:15-21 | What is left of the buffer after a request, behind the requests answered, is all that was received; the slice taken is one complete request |
| `ChainLog.LastServed` | src/http/client.c:108-125 | With the last exchange of a connection recorded, the requests answered are still slices from the front, or end in one rejected answer |
| `ChainLog.NextGood` | src/http/client.c:94-117 | Going on with the next request keeps the invariant and uses up one of the allowed requests |
| `ChainLog.StepLog` | src/http/access-log.h:40-56 | The last filter keeps the invariant; the exchange is complete when it is reached |
| `ChainLog.LogOutcome` | src/http/client.c:94-117 | After the entry is written the exchange is recorded, and the connection closes exactly when it is not to be kept or the limit is reached; the limit of zero is the wrap-around of the counter |
| `ChainEngine.EngForward` | src/http/client.c:166-181 | A forward move keeps the order in which filters are open, done and passed |
| `ChainEngine.EngBack` | src/http/client.c:183-191 | So does a backward move, which only the request filter, or the send filter while the file is not finished, may start |
| `ChainEngine.EngWait` | src/http/client.c:193-195 | So does a suspension |
| `ChainData.ShiftDrops` | src/http/send.h:50-55 | Shifting the vector drops exactly the first n bytes it refers to |
| `ChainData.SendOneConserves` | src/http/send.h:38-55 | Accepted bytes and the vector together stay the same over a partial send, and the vector gets shorter |
| `ChainData.SendLoopConserves` | src/http/send.h:37-56 | The same for the whole loop, which ends empty, waits with the timer armed, or fails |
| `ChainData.ClampLength` | src/http/transfer.h:25-29 | No more passes than was given, and everything while the total is within the content length |
| `ChainData.BodyLength` | src/http/transfer.h:20-31 | For non-empty inputs, exactly when the output has the content length |
| `ChainData.ClampShape` | src/http/transfer.h:20-31 | The output is the first bytes of the inputs up to the one that reaches the content length, and then all later inputs |
| `ChainData.ClampKeeps` | src/http/transfer.h:20-31 | Exactly when the output is the whole input, and exactly when it is a prefix of it |
| `ChainData.OvershootLength` | src/http/transfer.h:20-31 | An input with more bytes than announced that all go out |
| `ChainData.OvershootHole` | src/http/transfer.h:20-31 | An input whose output misses a byte in the middle |
| `Client.AlphahttpdClient.constructor` | src/http/client.c:23-71 | The object represents a new connection |
| `Client.AlphahttpdClient.ReqRead` | src/http/request.h:27-43 | The same for the request filter, with the parser run in place |
| `Client.AlphahttpdClient.RespProcess` | src/http/response.h:21-70 | The response filter's function, with the head built in a byte buffer |
| `Client.AlphahttpdClient.SendProcess` | src/http/send.h:22-62 | The send loop is the recursive send function |
| `Client.AlphahttpdClient.FilterCall` | src/http/client.c:130-157 | One filter call of the object is one filter call of the chain |
| `Client.AlphahttpdClient.ModsClose` | src/http/client.c:73-81 | The closing loop closes exactly the opened filters, each once |
| `Client.AlphahttpdClient.Reset` | src/http/client.c:94-106 | Only the leftover bytes and the connection's counters outlive a request |
| `Client.AlphahttpdClient.Keepalive` | src/http/client.c:108-117 | Goes on with the next request, or gives up at the limit |
| `Client.AlphahttpdClient.Turn` | src/http/client.c:165-204 | The switch of the loop moves cursor and data as the chain does |
| `Client.AlphahttpdClient.FiltersProcess` | src/http/client.c:159-209 | The loop over the object terminates, for all answers, in the outcome of the chain |
| `Http1.WordMeaning` | src/util/http1.h:63-85 | A scanned word is exactly a word of the grammar with its spaces |
| `Http1.ReqLineMeaning` | src/util/http1.h:59-125 | The request-line parser answers with boundaries and a length exactly for the lines of the grammar |
| `Http1.ReqLineStable` | src/util/http1.h:59-125 | Its positive verdicts, and negative ones outside an over-long version token, hold for every extension of the buffer |
| `Http1.LongVersionRejected` | src/util/http1.h:98-102 | A printable run longer than eight bytes is rejected at the end of the buffer and accepted once terminated |
| `Http1.ReqLineBadFinal` | src/util/http1.h:95-105 | A rejection is final exactly when the buffer does not end inside an over-long version token |
| `Http1.HeaderLineMeaning` | src/util/http1.h:180-223 | The header parser accepts exactly the header lines and blank lines of the grammar |
| `Http1.HeaderLineStable` | src/util/http1.h:180-223 | Every verdict but "need more data" holds for every extension |
| `Http1.RespLineMeaning` | src/util/http1.h:134-170 | The response-line parser accepts exactly the response lines of the grammar, with the code's value |
| `Http1Parsers.HttpReqParse` | src/util/http1.h:59-125 | The pointer-advancing parser gives the code and the spans of the specified one |
| `Http1Parsers.HttpHdrParse` | src/util/http1.h:180-223 | The same for header lines |
| `Http1Parsers.HttpRespParse` | src/util/http1.h:134-170 | The same for response lines |
| `Http1Parsers.TrimSpaces` | src/util/http1.h:208-210 | The loop cuts exactly the trailing spaces |
| `Http1Writers.HttpReqWrite` | src/util/http1.h:229-249 | Writes the line into the buffer, or -1 and nothing when it does not fit |
| `Http1Writers.HttpRespWrite` | src/util/http1.h:254-273 | The same for a response line |
| `Http1Writers.HttpHdrWrite` | src/util/http1.h:278-292 | The same for a header line, which is dropped when it does not fit; without a buffer, the length it needs |
| `Http1Writers.ReqLineRoundTrip` | src/util/http1.h:229-249 | The request parser gives back the method and target that were written, whatever follows |
| `Http1Writers.RespLineRoundTrip` | src/util/http1.h:254-273 | The response parser gives back code and message |
| `Http1Writers.HdrRoundTrip` | src/util/http1.h:278-292 | The header parser gives back name and value |
| `Http1Writers.HeaderBlockRoundTrip` | src/util/http1.h:180-223 | Repeated header parsing gives back the list of fields and consumes exactly their text |
| `Http1Writers.HeadRoundTrip` | src/http/response.h:21-58 | Parsing the head gives back code, message and fields and consumes exactly the head, whatever body follows |
| `Http1Writers.HeadFits` | src/http/response.h:23-58 | The buffer holds the whole head exactly when it is large enough |
| `Http1Writers.BuildHead` | src/http/response.h:21-58 | The write cursor leaves exactly the specified head in the buffer, or fails when the first line does not fit |
| `Chunked.Httpchunked.Control` | src/util/http1.h:316-379 | One control byte moves the decoder as the automaton does; the 64-bit size never wraps |
| `Chunked.Httpchunked.Parse` | src/util/http1.h:305-385 | Each call is a run of the byte-at-a-time automaton over the bytes it processed, at least one of them, everything when there is no output |
| `Chunked.RunConcat` | src/util/http1.h:305-385 | Running over two pieces is running over their concatenation |
| `Chunked.Decode` | src/util/http1.h:305-385 | Feeding any partition of a stream, with unprocessed rests fed again, gives verdict and output of the automaton on the whole stream |
| `Chunked.MessageAccepted` | src/util/http1.h:305-385 | Every message of the grammar decodes to its data, leaving what follows |
| `Chunked.AcceptedIsMessage` | src/util/http1.h:305-385 | Every accepted stream starts with a message of the grammar that has the output as data |
| `Chunked.AcceptedLanguage` | src/util/http1.h:305-385 | The accepted streams are exactly the chunked messages of RFC 9112 section 7.1 without extensions and trailers, widened by bare LF and by empty size lines after the first |
| `Chunked.ChunkedWrite` | src/util/http1.h:390-398 | Header and trailer are the size in lower-case hexadecimal and its own line end |
| `Chunked.ChunkedRoundTrip` | src/util/http1.h:390-398 | Framed non-empty blocks and the zero chunk decode to the concatenation of the blocks |
| `Url.UrlEscape` | src/util/http1.h:404-429 | Succeeds exactly when the escaped text fits, and writes that text |
| `Url.UnescapedLength` | src/util/http1.h:438-451 | The length pass counts plain bytes and triples |
| `Url.UrlUnescape` | src/util/http1.h:453-477 | Fails exactly when the text is malformed or its bytes do not fit |
| `Url.LengthIsExact` | src/util/http1.h:434-478 | The length pass counts exactly the bytes a well-formed text stands for |
| `Url.UnescapeAlloc` | src/http/request.h:129-140 | With the buffer of the first pass the second fails exactly for malformed text and fills the buffer exactly |
| `Url.EscapeRoundTrip` | src/util/http1.h:404-429 | Unescaping undoes escaping for every text without '%' (RFC 3986 section 2.1) |
| `Url.EscapeRoundTripIff` | src/util/http1.h:404-429 | It does so for exactly those texts |
| `Url.EscapeByteIs` | src/util/http1.h:404-429 | Printable ASCII stays, every other byte becomes '%' and two upper-case digits |
| `Url.EscapeAt` | src/util/http1.h:404-429 | Every byte is escaped on its own, wherever it stands |
| `Url.UnescapeFirst` | src/util/http1.h:453-477 | What the first byte of an escaped text stands for, or that it is malformed |
| `Url.RefusedPath` | src/util/http1.h:488-540 | A refused URL has no path and no query |
| `Url.HttpurlSplit` | src/util/http1.h:488-562 | The scanning splitter sets the six spans, from empty ones, as specified, and returns the specified verdict |
| `Url.SplitMeaning` | src/util/http1.h:488-562 | A URL is accepted with six given spans exactly when the grammar has these parts in these places |
| `Url.SplitUnique` | src/util/http1.h:488-562 | The grammar has at most one split of a URL |
| `Url.SplitSound` | src/util/http1.h:488-562 | Refused is exactly a URL with something other than a port or a path behind its bracketed host; the spans of an accepted one are those of a split of the grammar |
| `Url.SplitLossless` | src/util/http1.h:488-562 | Of every accepted URL the non-empty spans are in bounds and adjacent, and scheme, host, port, path, query and fragment concatenate to the URL |
| `Request.ParseHeaders` | src/http/request.h:73-104 | The header loop, advancing through the buffer, is the specified header reading |
| `RequestText.RequestMeaning` | src/http/request.h:48-157 | From the grammars alone: a complete request is rejected exactly when HTTP/1.1 has no Host, or the target has no well-formed path that can be normalized; otherwise the method is the first word, the path the normalized text of the URL's path, Host the first with a value, If-Modified-Since the last, and keep-alive is decided by the last Connection that is keep-alive or close, else by the version |
| `RequestText.FrontMeaning` | src/http/request.h:27-43 | The same for the request at the front of a longer buffer; what starts with no request is rejected |
| `RequestText.RequestHasText` | src/http/request.h:48-108 | Every complete request reads by the grammar |
| `RequestText.TextUnique` | src/http/request.h:48-108 | In one way only |
| `RequestText.TextIsRequest` | src/http/request.h:48-108 | What reads by the grammar is a complete request |
| `RequestText.BlockRead` | src/http/request.h:73-104 | The header loop goes over exactly the fields of the block and sets what they say |
| `RequestText.HostAndPathFit` | src/http/request.h:86-128 | Host and path of a request do not overlap, nor fill it |
| `Request.ReqParse` | src/http/request.h:48-157 | The request parser, with its loop, is the function that these lemmas are about |
| `Request.FinishParse` | src/http/request.h:108-157 | Its part after the headers, with the two passes of unescaping and the normalization, is that function's |
| `Request.ParseStable` | src/http/request.h:48-157 | Its final verdicts and fields hold for every extension of the buffer, except in an over-long version token |
| `Request.HeadersAgain` | src/http/request.h:73-104 | Going over header lines again with the fields of an earlier attempt changes nothing |
| `Request.ParseAgain` | src/http/request.h:27-43 | Parsing again after more data gives what one parse of the whole buffer gives |
| `Request.KeepAliveRequest` | src/http/request.h:106-114 | Keep-alive is decided for complete requests only, whose length is then recorded |
| `Request.PathBound` | src/http/request.h:129-153 | The decoded path is no longer than the buffer |
| `Request.RequestEndStable` | src/http/request.h:48-108 | Where a request ends does not depend on what follows |
| `Request.RequestEndLocal` | src/http/request.h:48-108 | Nor on anything but its own bytes |
| `Request.RequestsOf` | src/http/request.h:15-25 | Requests taken off the front of a stream are its first requests |
| `Request.RequestsSplit` | src/http/request.h:48-108 | A stream is its requests and a rest that holds no complete one |
| `Request.RequestsGrow` | src/http/receive.h:57-60 | More data does not change the requests that are complete |
| `Request.NoEarlyReject` | src/util/http1.h:95-105 | No part of a request line is rejected, exactly when its version token has eight bytes |
| `Request.CutRequest` | src/http/request.h:48-157 | A request cut anywhere is done exactly when its last byte has arrived: for all cuts, exactly when its version token has eight bytes |
| `Request.ArrivedRequest` | src/http/request.h:48-157 | However much has arrived behind a request, parsing gives what parsing that request alone gives |
| `Request.PartOfRequest` | src/http/request.h:48-108 | A proper part of a request with an eight-byte version is neither accepted nor rejected |
| `Request.FullLength` | src/http/request.h:108-108 | The recorded length is the end of the request, and nothing for rejected bytes |
| `Request.HostAndPathNoEol` | src/http/request.h:86-88 | Neither the parsed Host nor the parsed path holds a line end |
| `IpAddr6.OpenGap` | src/util/ipaddr.h:240-259 | Moving the right part from the last byte down opens the gap in place: left bytes, zeros, right bytes |
| `IpAddr6.Ip6Byte` | src/util/ipaddr.h:200-233 | The loop body moves the variables as the specified scan does, writing within 16 bytes |
| `IpAddr6.Ip6Parse` | src/util/ipaddr.h:194-262 | The result code and the 16 bytes are those of the specified parser |
| `IpAddr6.ParseText` | src/util/ipaddr.h:194-262 | Every textual form is accepted, whatever follows, and gives left groups, zeros, right groups |
| `IpAddr6.ParsedIsText` | src/util/ipaddr.h:194-262 | Every accepted input starts with a textual form of the result |
| `IpAddr6.Parse6Meaning` | src/util/ipaddr.h:194-262 | Exactly the textual forms (RFC 4291 section 2.2) are accepted |
| `IpAddr6.FindCut` | src/util/ipaddr.h:295-319 | The loop finds the leftmost of the longest zero runs (RFC 5952 section 4.2.3, a single zero group included) |
| `IpAddr6.FormCutAddress` | src/util/ipaddr.h:288-338 | Cutting a zero run does not change the address |
| `IpAddr6.Ip6ToStr` | src/util/ipaddr.h:288-338 | The text is the form with that run cut and fits 39 bytes |
| `IpAddr6.Ip6RoundTrip` | src/util/ipaddr.h:288-338 | Parsing the text of any of the 2^128 addresses, whatever follows it, gives the address back |
| `IpAddr6.PrintAndParse6` | src/util/ipaddr.h:288-338 | The same for the two programs: code 0 and the same 16 bytes |
| `IpAddr4.Ip4Parse` | src/util/ipaddr.h:60-96 | Code and bytes of the specified IPv4 parser |
| `IpAddr4.Parse4Meaning` | src/util/ipaddr.h:60-96 | Exactly four dotted decimal octets are accepted |
| `IpAddr4.Ip4ToStr` | src/util/ipaddr.h:122-138 | The text is the dotted decimal form |
| `IpAddr4.Ip4RoundTrip` | src/util/ipaddr.h:122-138 | Parsing the printed address gives it back |
| `ListenAddress.IpPortSplit` | src/cmd.h:25-51 | Address and port of the specified listen address, or -1 |
| `ListenAddress.ParseMeaning` | src/cmd.h:25-51 | Exactly three forms are accepted, each with the address and port it names: a bracketed IPv6 text and a port, an IPv4 text and a port, a port alone |
| `ListenAddress.Listen6RoundTrip` | src/cmd.h:28-31 | "[ADDR]:PORT" gives every IPv6 address and port back |
| `ListenAddress.Listen4RoundTrip` | src/cmd.h:34-40 | "a.b.c.d:PORT" gives the mapped address and the port back |
| `ListenAddress.ListenPortRoundTrip` | src/cmd.h:48-50 | A port alone leaves the address unspecified |
| `Server.AcceptKeepsInv` | src/server.c:289-332 | Accepting keeps free and occupied slots a partition of the used ones, and takes a slot nobody has |
| `Server.FinKeepsInv` | src/server.c:396-410 | So does closing; the connection count is not zero then |
| `Server.AcceptOwns` | src/server.c:289-332 | With all slots occupied nothing changes; otherwise the new connection alone gets a slot that nobody has |
| `Server.FinFrees` | src/server.c:396-410 | A close takes the slot from its connection alone and makes it the next to be used |
| `Server.ReachableInv` | src/server.c:289-410 | Interleavings of accepts and closes keep the partition |
| `Server.EveryInterleaving` | src/server.c:289-410 | The partition holds after every interleaving of accepts and closes from the empty pool |
| `Server.EventDelivery` | src/server.c:354-360 | An event is delivered exactly when its slot was freed an even number of times since: to its own connection when not freed, never after exactly one free |
| `Server.StaleEventAfterTwoFrees` | src/server.c:356-360 | One bit is not enough for two frees: a run in which an event reaches another connection |
| `Server.AlphaHttpd.Accept1` | src/server.c:289-332 | The linked free list and counters represent the pool after the accept |
| `Server.AlphaHttpd.ConnFin` | src/server.c:396-410 | They represent the pool after the close, with the generation bit flipped |
| `Server.AlphaHttpd.KqAttach` | src/server.c:412-420 | The tag is the slot and its generation bit, and the verdict is that of the attach |
| `Server.AlphaHttpd.Dispatch` | src/server.c:354-360 | Handlers run exactly when the tag has the slot's bit |
| `Kcq.NextKeepsInv` | src/kcq.h:20-53 | After the stop flag, posts made and to come are enough for every worker that may still wait |
| `Kcq.RunKeepsInv` | src/kcq.h:20-53 | That holds in every interleaving |
| `Kcq.NoDeadlock` | src/kcq.h:20-53 | After the stop flag the boss or a worker can always take a step until all is destroyed |
| `Kcq.WaitsOnce` | src/kcq.h:46-50 | No worker waits more than once after the stop flag |
| `Kcq.ShutdownEnds` | src/kcq.h:20-53 | Workers and boss take a bounded number of steps, whatever is submitted meanwhile |
| `Kcq.MaximalRunDestroys` | src/kcq.h:32-40 | A run that cannot go on has completed all joins |
| `LtConf.Ltconf.Read` | src/util/ltconf.h:105-298 | One call moves the tokenizer as specified and returns its output |
| `LtConf.Ltconf.Quoted` | src/util/ltconf.h:183-217 | The same for text within quotes |
| `LtConf.Ltconf.Escaped` | src/util/ltconf.h:219-262 | The same for escapes |
| `LtConf.ReadsConfig` | src/util/ltconf.h:105-298 | A config of plain or escape-free quoted words, each followed by white space, is read as exactly its words, with their roles and line numbers |
| `LtConfEscape.WordRead` | src/util/ltconf.h:183-262 | The pieces, role and line of any quoted word with escapes |
| `LtConfEscape.EscapesRead` | src/util/ltconf.h:183-262 | Together the pieces are the word that is meant exactly when no escape stands right behind a line end |
| `LtConfEscape.TextLost` | src/util/ltconf.h:195-201 | A word whose text is lost |
| `LtConf.ContPlaced` | src/util/ltconf.h:277-293 | An output word lies in the input of its call, and the first on a line is a key |
| `ContentTypes.PackUnpack` | src/http/file.h:115-121 | Two 16-bit ranges come back from the packed value |
| `ContentTypes.FileInit` | src/http/file.h:98-132 | The map's values stand for the pairs of extension and type in the text |
| `ContentTypes.PairsMeaning` | src/http/file.h:106-123 | A pair is there exactly when a line lists the extension after the type |
| `ContentTypes.ContentType` | src/http/file.h:142-162 | The lookup ignores case, and falls back to the default type |
| `ContentTypes.Index` | src/http/file.h:90-162 | For unique extensions of at most four bytes and at most 64 KiB, the answer is the type of the line that lists the extension |

## Left out

- Sockets, files, directories, the kernel queue and its call queue, threads, signals: foreign calls, modelled by their answers.
- Timer queue, hash map, path normalization, date formatting and the splitting of file names: their source is outside the repository.
- Directory-listing HTML, access-log text, the calls that look up dates and content types, virtual documents, option dispatch, CPU affinity, Windows paths, SSE: formatting or thin tables.
- A file filter whose name does not fit its buffer: `GoodConf` excludes it; its failing open would be treated as a declined one.
- HEAD on directory listings and bodies of 304 answers: no claim beyond the byte stream; the code does not follow RFC 9110 there.
- The release of the receive buffer when a connection ends before the request filter was opened: the program does not free it there.
- Escaping in request lines: with it, the length that `http_req_write` returns is not the length it writes.
- Config text that is split across buffers: a call that ends at a word boundary makes the next one fail.
- Client.AlphahttpdClient.constructor: the peer's address, the identifier text and the fields of the kernel events are left out.
- Http1Writers.HttpReqWrite: only the form without escaping.
- Server.AlphaHttpd.Dispatch: the event flags and the tests for an active task, which follow the generation test, are left out.
- ChainResponses.Statuses: the name under which the index file is looked for is left out, its answer is a flag.
- ChainResponses.Heads: modification time and content type are texts that the file's properties come with.
- RequestText.RequestMeaning: for requests below 64 KiB, the reach of the 16-bit ranges; a receive buffer is not larger.
- LtConf.Ltconf.Read: column numbers are left out.
- ContentTypes.ContentType: the splitting of the file name and the test for a slash are left out; the extension is given.
- LtConf.Ltconf.Escaped: reading the byte after the buffer, when a buffer ends inside an escape, is an error here.
- Server.AlphaHttpd.Accept1: slots are indices instead of pointers; the retry timer is left out, and the ways in which accepting fails are one answer.
- Kcq.NoDeadlock: the queue's contents are left out; a submission is a post.
- IpAddr6.FindCut: positions are counted in groups of two bytes, the program counts bytes.
- Client.AlphahttpdClient.FiltersProcess: a call that waits is called again with the next event; timers that fire in between only destroy the connection.
