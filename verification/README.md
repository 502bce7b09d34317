# GroovyServ's wire protocol, verified

GroovyServ runs Groovy scripts in a resident JVM. A small C client turns its command line, environment and
standard input into a byte stream; the Groovy server parses the stream, runs the script next to a handler for the
client's further input, frames both output streams and one exit status on the same socket, and the C client takes
them apart again. This project models both ends and proves that they undo each other, and that every interleaving of
the server's two handler threads keeps its promises.

| module | what it models |
|---|---|
| `Base64`, `Buf`, `Options`, `EnvHeaders` | the C client's encoder, growable buffer, command line scan and environment selection, each a loop over mutable arrays or objects proved against a recursive definition |
| `Headers`, `Request` | the server's header parser and formatter, and the invocation request from `argv` to the server's argument list |
| `Response`, `ClientSession`, `ResponseRoundTrip`, `GroovyClients` | the frames of a response, the C client and the Groovy client that demultiplex them |
| `Connection`, `StdinPath` | the connection object and the path of standard input to the script |
| `SessionSteps`, `RequestWorkers`, `EndToEnd` | the two handlers of a session as a state machine, the object that takes its steps, and a whole session up to the client's exit status |
| `Classpath`, `Environment` | the class path options, the environment overlay and the current directory that all sessions share |
| `Arith`, `Text`, `Sockets` | division, byte strings and numbers, and byte streams whose reads are split at will |

Code that works in place is a class or an array algorithm here too; each such method is proved against a function of
its inputs and its old state, and the theorems are about those functions. A byte is a `char` below 256. A socket is the
sequence of bytes not yet read, with an arbitrary choice of how much each bulk read delivers.

## What the proofs found

The code is modelled as it is. Where it does less than its comments or the protocol suggest, there is a lemma with the
exact condition, a witness, or both:

- The status TERMINATED, which the termination hook sends "by way of precaution", never comes from the hook. It reaches
  the client exactly when the script's own outcome carries that number (`SessionSteps.TerminatedCodeIff`, witness `ExitWithFive`).
- The script's status is certain to be the one sent exactly when the client's input stays open, no transfer into the pipe
  to the script fails, and either the status is INTERRUPTED anyway, or the stream handler had begun and is not left waiting for
  room in the pipe (`SessionSteps.ScriptStatusCertainIff`). Each accident has its run: the stream handler overtakes the script
  when it was cancelled before it began (`ScriptStatusCanBeLost`), when the input ended it (`InputOvertakesScript`), when the
  script left more unread than the pipe holds and its end interrupts the blocked write (`FullPipeOvertakesScript`), or when
  a transfer failed (`BrokenPipeOvertakesScript`). A line typed after the thread that read stdin has died cancels a script
  and reports success (`BrokenPipeCancelsScript`).
- `StreamRequest.check` rejects the frame of a closed stdin before the handler's `isEmpty` branch, which would keep
  waiting for an interruption; no frame of the C client reaches that branch (`StdinPath.ClientNeverTearsDown`). So a stdin that is
  merely closed ends the stream handler with an interruption, and that can cancel the running script
  (`EndToEnd.ClosedStdinCancelsScript`). The end of the stream at a header is an invalid request for the same reason, not the
  "half-closed" case of the handler's comment.
- Frames must reach the socket as one step. The synchronized block that would ensure it is commented out
  (StreamResponseOutputStream.groovy:62-70). With a second header between a header and its body, that body is printed right
  exactly when it is the front of that header followed by itself (`ResponseRoundTrip.InterleavedBodyRightIff`): "a" never is
  (`InterleavingCorrupts`), a copy of the header is (`HarmlessInterleaving`).
- The handler takes one read for the whole body of a stdin frame; a chunk arrives if and only if that read is full and the
  pipe takes it (`StdinPath.LastChunkForwardedIff`).
- A request comes back as it was sent if and only if none of its plain values holds a line feed or outer white space, and the
  token is the server's (`Request.RequestComesBackIff`).
- The Groovy client throws on a batch of frames exactly when the last one has an empty body (`GroovyClients.BatchFailsIff`,
  for a whole session `SessionFailsIff`).
- "CWD must be always the last entry of classpath": it is unless another option path first occurs behind "."
  (`Classpath.DotIsLastIff`), as in `-cp .:lib` (`DotInFront`).
- An entry without '=' makes the two environment lookups disagree on names the process started with
  (`Environment.LookupsAgreeIff`); PWD comes back as the text "null" when it was unset (`Environment.PwdRestoredIff`).
- Sessions that share a directory reset it under each other, and a script that raises the illegal-state error leaves
  its directory behind (`Environment.EndKeepsFaithfulIff`, `SharingMovesASession`).
- `read_header` accepts a key of 30 bytes, which strncpy stores without a terminator; it reads back only if the byte behind
  it happens to be one (`ResponseRoundTrip.CopyHidesOldBytesIff`). The server formats no such key.
- The client has ten header records and checks the count after storing; an eleventh header overruns them. The model
  ends there (`Overrun`); the server never formats more than two.

## Model

| member | source | states |
|---|---|---|
| Base64.Encode | src/main/c/base64.c:23-58 | the in-place encoder writes exactly the RFC 4648 section 4 text of the bytes before the NUL, and a terminator, and returns their number |
| Base64.RoundTrip | src/main/c/base64.c:29-57 | a section 4 decoder gives back every byte string from its encoding |
| Base64.OverflowIsHarmless | src/main/c/base64.c:32-42 | the accumulator that overflows its 32 bits selects the same 6-bit indices as an unbounded one |
| Base64.SelectsGroup | src/main/c/base64.c:37-43 | every index shifted out of the accumulator is the next 6-bit group of the input |
| Base64.FlushesGroup | src/main/c/base64.c:46-49 | the bits left at the end are the last 6-bit group, zero bits added |
| Base64.EncodedPadding | src/main/c/base64.c:51-54 | the text is well formed, with as many '=' as the last group of three lacks bytes |
| Base64.EncodedFits | src/main/c/session.c:186-188 | text and terminator fit the 1.5 n + 5 bytes that send_header allocates |
| Base64.EncodedIsClean | src/main/c/session.c:194-195 | an encoded argument has no line feed, no NUL and no outer white space, so a header line carries it whole |
| Base64.Examples | src/main/c/base64.c:21-57 | three examples of section 10 of RFC 4648, with both kinds of padding |
| Base64.PlusAndSlash | src/main/c/base64.c:21 | bytes that need the last two symbols of the alphabet |
| Buf.StrNLen | src/main/c/buf.c:25-36 | the length up to the first NUL, at most n |
| Buf.Buffer.OffsNCopy | src/main/c/buf.c:73-86 | strncpy at an offset: bytes before it kept, zero padding behind, size and least sufficient doubled capacity |
| Text.PaddedBytes | src/main/c/buf.c:83 | strncpy copies byte by byte and writes zeros behind a shorter string |
| Buf.Buffer.StrCopy | src/main/c/buf.c:88-92 | afterwards the buffer holds exactly the string |
| Buf.Buffer.Add | src/main/c/buf.c:100-104 | the string is appended to the text before the first NUL |
| Buf.Buffer.OffsVPrintf | src/main/c/buf.c:106-121 | the retry loop terminates, with the formatted text at the offset and the capacity one growth for its size would give |
| Buf.Buffer.Printf | src/main/c/buf.c:133-141 | same text, size and capacity as buf_add of the formatted text, whatever the retries truncated |
| Buf.Buffer.Apply | src/main/c/buf.c:73-141 | any sequence of copies, adds and prints leaves what the model of the sequence says |
| Buf.RunIsConcatenation | src/main/c/buf.c:88-141 | the text after any sequence is the concatenation of everything since the last copy |
| Buf.RunCapacity | src/main/c/buf.c:79-82 | the capacity after any sequence is one growth for the largest size ever needed |
| Buf.GrowToIsLeast | src/main/c/buf.c:79-81 | growing doubles the least sufficient number of times, ending below twice the need |
| Buf.GrowTwice | src/main/c/buf.c:79-81 | growing for one need and then another is growing once for the larger |
| Options.ScanOptions | src/main/c/option.c:133-238 | the in-place scan leaves in argv, the option object and the masks what the recursive parser says, or stops for its reason |
| Options.ScanArgs | src/main/c/option.c:140-221 | the loop over argv refines the recursive parser |
| Options.ScanTurn | src/main/c/option.c:141-220 | one turn consumes one or two entries: exactly those are replaced, as the parser's turn says |
| Options.ScanReadsItems | src/main/c/option.c:140-221 | every sequence of plain arguments, flags and valued options is read back as written, values starting with -C included |
| Options.ScanFindsItems | src/main/c/option.c:140-221 | conversely every command line that scans is such a sequence |
| Options.ScanSeparates | src/main/c/option.c:149-220 | on success exactly the options and their values are NULLed, all else stays in place and is no -C option, and the masks list their values in order, at most MAX_MASK each |
| Options.ScanMeans | src/main/c/option.c:140-221 | by the names of the options: host and token are those of the last ones, the port is the number of its last, a switch is on exactly when it was before or its flag is there, help and version by groovy's own arguments |
| Options.PortMeans | src/main/c/option.c:178-184 | a decimal port of the last -Cp or -Cport is that number |
| Options.ScanIntReads | src/main/c/option.c:180 | a number is read between blanks in front and any other text behind |
| Options.NoConflictLeft | src/main/c/option.c:136-139 | the combinations that the scan refuses, with its reasons; no arguments ask for help |
| Options.ScanStopsAt | src/main/c/option.c:155-217 | behind accepted items a -C word stops the scan by its name: usage, version, an unknown name, a missing value, a port that is no number, an eleventh mask |
| Options.SetMaskOption | src/main/c/option.c:108-120 | appends to the non-NULL front of the array if and only if there is room |
| Options.WhatOption | src/main/c/option.c:122-131 | finds the first table entry of the name |
| Options.ClientOption.Set | src/main/c/option.c:173-219 | the switch changes the settings as the kind of option says, or stops |
| Options.EffectByName | src/main/c/option.c:141-219 | each accepted item changes exactly the settings of its name |
| EnvHeaders.PassesIff | src/main/c/session.c:121-156 | an entry passes exactly when its NAME contains an include mask, or all are included, and no exclude mask; when the process ends instead |
| EnvHeaders.SelectedIsFilter | src/main/c/session.c:146-156 | for NAME=VALUE entries exactly the wanted ones are passed, in order |
| EnvHeaders.SelectedFailsIff | src/main/c/session.c:121-128 | the process ends exactly when an entry has no '=' and there is a mask to match it against |
| Text.OccursIff | src/main/c/session.c:130 | a mask occurs exactly in the names that have it between a front and a back |
| EnvHeaders.MaskMatch | src/main/c/session.c:121-133 | answers from the NAME part, and the string it cuts at '=' ends as it was |
| EnvHeaders.MasksMatch | src/main/c/session.c:135-144 | the first match or failure of the masks before the first NULL, the string unchanged |
| EnvHeaders.MakeEnvHeaders | src/main/c/session.c:146-156 | appends one header line for each selected entry, in order, and leaves every environment string as it was |
| Headers.ReadLine | src/main/groovy/org/jggug/kobo/groovyserv/utils/IOUtils.groovy:65-75 | the bytes up to a line feed or the end, and the stream behind them |
| Headers.ReadLines | src/main/groovy/org/jggug/kobo/groovyserv/utils/IOUtils.groovy:52-59 | the lines up to an empty one or the end, and the stream behind them |
| Headers.BlockRoundTrip | src/main/groovy/org/jggug/kobo/groovyserv/utils/IOUtils.groovy:52-75 | a block of non-empty lines reads back line by line and the stream is left at the first body byte |
| Headers.ParseHeaders | src/main/groovy/org/jggug/kobo/groovyserv/ClientProtocols.groovy:157-177 | the map of lists built line by line gives every key all its values in order |
| Headers.FormatAsHeader | src/main/groovy/org/jggug/kobo/groovyserv/ClientProtocols.groovy:200-218 | the nested loops write one line for each value of each non-empty key, an empty line and the body |
| Headers.HeaderRoundTrip | src/main/groovy/org/jggug/kobo/groovyserv/ClientProtocols.groovy:157-218 | parsing what was formatted gives every key its trimmed values in order, and stops exactly at the body |
| Headers.PaddedValueRead | src/main/groovy/org/jggug/kobo/groovyserv/ClientProtocols.groovy:164 | a value between blanks is read as exactly what stands between them, blanks inside included |
| Text.TrimTakesBlanks | src/main/groovy/org/jggug/kobo/groovyserv/ClientProtocols.groovy:164 | trimming takes away the outer blanks and nothing else |
| Headers.LoneKeyParses | src/main/groovy/org/jggug/kobo/groovyserv/ClientProtocols.groovy:161-163 | a line without ':' is a key with an empty value |
| Headers.NoKeyNoLines | src/main/groovy/org/jggug/kobo/groovyserv/ClientProtocols.groovy:203-211 | an entry without a key is not written |
| Headers.ValuesExactIff | src/main/groovy/org/jggug/kobo/groovyserv/ClientProtocols.groovy:164 | a key's values come back untouched exactly when none has outer white space |
| Request.EncodeArgument | src/main/c/session.c:188-194 | the allocated work buffer suffices and yields the encoded argument |
| Request.PrintArguments | src/main/c/session.c:182-198 | one Arg line for each argv entry that is not NULL, in order |
| Request.SendHeader | src/main/c/session.c:163-222 | the bytes written are the header block of directory, token, surviving arguments, selected environment and class path, without the buffer's terminator |
| Request.ReadInvocationRequest | src/main/groovy/org/jggug/kobo/groovyserv/ClientProtocols.groovy:110-125 | the request is read from the first block of the stream, or rejected for its arguments or its token |
| Request.ArgsRoundTrip | src/main/groovy/org/jggug/kobo/groovyserv/ClientProtocols.groovy:127-135 | decodeArgs gives back every list of byte strings from its encoding |
| Request.RequestRoundTrip | src/main/groovy/org/jggug/kobo/groovyserv/ClientProtocols.groovy:110-125 | the server reads back exactly the arguments, directory, token, class path and environment the client sent, in order, and stops at the byte behind them |
| Request.RequestComesBackIff | src/main/groovy/org/jggug/kobo/groovyserv/ClientProtocols.groovy:110-177 | the request comes back as sent if and only if directory, token, class path and entries hold no line feed and no outer white space, and the token is the server's |
| Request.CommandRoundTrip | src/main/groovy/org/jggug/kobo/groovyserv/ClientProtocols.groovy:112-122 | a request with a command arrives with that command, no protocol, and nothing else |
| Request.ProtocolRoundTrip | src/main/groovy/org/jggug/kobo/groovyserv/ClientProtocols.groovy:112-122 | a request with a protocol arrives with that protocol and no command |
| Request.RejectedIff | src/main/groovy/org/jggug/kobo/groovyserv/ClientProtocols.groovy:127-135 | rejected for an argument exactly when one is not Base64, whatever the token; accepted only with the server's token |
| Request.RequestLetters | src/main/c/session.c:163-222 | the bytes of a request, letter by letter |
| Request.CommandLineRoundTrip | src/main/c/session.c:163-222 | from the command line to the server: scan, request and parse yield the plain arguments in order and the selected environment; entries that are not selected may hold anything |
| Response.StreamResponseOutputStream.Write | src/main/groovy/org/jggug/kobo/groovyserv/stream/StreamResponseOutputStream.groovy:58-71 | one frame of the written range is appended to the shared stream, or nothing when closed |
| Response.StreamResponseOutputStream.WriteByte | src/main/groovy/org/jggug/kobo/groovyserv/stream/StreamResponseOutputStream.groovy:47-53 | a frame of the low eight bits |
| Response.WriteAll | src/main/groovy/org/jggug/kobo/groovyserv/stream/StreamResponseOutputStream.groovy:58-71 | any sequence of writes to the two streams appends their frames in order |
| Response.FormatAsResponseHeader | src/main/groovy/org/jggug/kobo/groovyserv/ClientProtocols.groovy:187-192 | the header block of a frame |
| Response.FormatAsExitHeader | src/main/groovy/org/jggug/kobo/groovyserv/ClientProtocols.groovy:194-198 | the block of an exit status |
| Response.FrameText | src/main/groovy/org/jggug/kobo/groovyserv/ClientProtocols.groovy:187-192 | the bytes of a frame, letter by letter |
| Response.ExitText | src/main/groovy/org/jggug/kobo/groovyserv/ClientProtocols.groovy:194-198 | the bytes of a status frame and its message |
| ClientSession.ReadLine | src/main/c/session.c:280-311 | a line with its line feed, or as much as fits or arrives, in a buffer otherwise zero |
| ClientSession.ReadHeaderInto | src/main/c/session.c:227-278 | writes one record in place as the parser of a line says, or ends the process with its code; other records untouched |
| ClientSession.ReadHeaders | src/main/c/session.c:316-344 | the loop refines the recursive block reader: records, count and rest of the stream |
| ClientSession.FindHeaderLoop | src/main/c/session.c:349-358 | the value of the first record with the key, none otherwise |
| ClientSession.ReceiveFromServer | src/main/c/session.c:367-394 | for every splitting of the bytes by recv, the whole body goes to its stream and nothing more is read |
| ClientSession.StartSession | src/main/c/session.c:451-527 | for every splitting of the bytes and every initial content of the records, output, status and rest are those of the recursive demultiplexer |
| ResponseRoundTrip.CopyHidesOldBytesIff | src/main/c/session.c:238-273 | a value copied over another reads back without a byte of the old one, if and only if it is shorter than the room or the byte behind it is a NUL |
| ResponseRoundTrip.HeaderLineRead | src/main/c/session.c:227-278 | strtok and the checks find key and value of every formatted header that fits |
| ResponseRoundTrip.BlockRead | src/main/c/session.c:316-344 | a formatted block is stored record by record and the body is left unread |
| ResponseRoundTrip.ParsersAgree | src/main/c/session.c:316-358 | on every formatted block within the limits, the C records and the server's map give the same value for every key and both stop at the body |
| ResponseRoundTrip.FramesDemultiplexed | src/main/c/session.c:463-526 | whatever follows them, frames add exactly their bodies in front of what the rest yields |
| ResponseRoundTrip.ResponseDemultiplexed | src/main/c/session.c:451-527 | for all writes of any bytes and lengths and every status, the client prints the bytes of each stream, returns the status and reads nothing behind it |
| ResponseRoundTrip.BlockDispatched | src/main/c/session.c:500-525 | for every block within the limits: a status ends the session with it, no headers with 0, a missing channel or size with 1, another channel ends the process with 1 |
| ResponseRoundTrip.NegativeSizeSkipped | src/main/c/session.c:384-392 | a negative size copies nothing |
| ResponseRoundTrip.ElevenHeaders | src/main/c/session.c:336-341 | a block of eleven headers overruns the records |
| ResponseRoundTrip.OtherEnds | src/main/c/session.c:327-335 | a carriage return before the line feed ends the block too, a NUL ends it as if it were empty |
| ResponseRoundTrip.LongLineCut | src/main/c/session.c:280-311 | a line without a line feed is cut after 512 bytes |
| ResponseRoundTrip.OddKeyExits | src/main/c/session.c:244-257 | a key that starts with CANCEL ends the process with 0, with another odd character with 1 |
| ResponseRoundTrip.LoneWordKeepsRecord | src/main/c/session.c:248-252 | a word without a delimiter runs into the line feed and leaves the record as it was |
| ResponseRoundTrip.BadHeaderExits | src/main/c/session.c:234-272 | a key without a value, longer than 30 bytes or with a value longer than 512 ends the process with 1, and no shorter one does |
| ResponseRoundTrip.DelimitersInHeaders | src/main/c/session.c:234-265 | delimiters in front of a key are read over; nothing behind its ':' is a missing value |
| ResponseRoundTrip.TruncatedResponse | src/main/c/session.c:386-394 | when the server vanishes inside a body everything that arrived is printed and the status is 0 |
| ResponseRoundTrip.InterleavedBodyRightIff | src/main/groovy/org/jggug/kobo/groovyserv/stream/StreamResponseOutputStream.groovy:62-70 | of two frames whose headers precede their bodies, the first body is printed right exactly when it is the front of the second header followed by itself, whatever follows |
| ResponseRoundTrip.InterleavingCorrupts | src/main/groovy/org/jggug/kobo/groovyserv/stream/StreamResponseOutputStream.groovy:62-70 | "a" is printed as "C" whatever the other frame |
| ResponseRoundTrip.HarmlessInterleaving | src/main/groovy/org/jggug/kobo/groovyserv/stream/StreamResponseOutputStream.groovy:62-70 | a body that is the other header itself: both bodies and the status come out right |
| GroovyClients.RunRequest | src/main/groovy/org/jggug/kobo/groovyserv/GroovyClient.groovy:49-59 | the Groovy client writes the request the C client would write in /tmp without a class path |
| GroovyClients.GroovyClient.ReadAllAsPossible | src/main/groovy/org/jggug/kobo/groovyserv/GroovyClient.groovy:203-224 | bytes, status and connection after one batch are those of the recursive digester, or it throws |
| GroovyClients.GroovyClient.WaitForExit | src/main/groovy/org/jggug/kobo/groovyserv/GroovyClient.groovy:118-124 | batches are digested until a status arrives |
| GroovyClients.BatchFailsIff | src/main/groovy/org/jggug/kobo/groovyserv/GroovyClient.groovy:214-217 | a batch of whole frames is refused exactly when its last body is empty, and is otherwise digested in full |
| GroovyClients.BatchesDigested | src/main/groovy/org/jggug/kobo/groovyserv/GroovyClient.groovy:203-224 | every split into batches at frame boundaries, none but the last ending with an empty frame, yields all bytes of both streams and the status |
| GroovyClients.SessionFailsIff | src/main/groovy/org/jggug/kobo/groovyserv/GroovyClient.groovy:203-224 | over a whole session the client throws exactly when a batch before the last ends with an empty frame |
| GroovyClients.BlockEffect | src/main/groovy/org/jggug/kobo/groovyserv/GroovyClient.groovy:211-220 | for every block: a channel of the two needs a size, else a status counts, and others are passed over |
| GroovyClients.MessageIgnored | src/main/groovy/org/jggug/kobo/groovyserv/GroovyClient.groovy:211-220 | a status with a message behind it is digested as the status |
| GroovyClients.TruncatedBatchRaises | src/main/groovy/org/jggug/kobo/groovyserv/ClientProtocols.groovy:179-185 | a body that has not arrived in full makes the client throw |
| GroovyClients.StatusStopsReading | src/main/groovy/org/jggug/kobo/groovyserv/GroovyClient.groovy:118-124 | what becomes available behind the status is left alone |
| GroovyClients.TwoClientsAgree | src/main/groovy/org/jggug/kobo/groovyserv/GroovyClient.groovy:203-224 | the Groovy client ends with the bytes and the status of the C client |
| Connection.ClientConnection.SendExit | src/main/groovy/org/jggug/kobo/groovyserv/ClientConnection.groovy:110-122 | exactly the status frame, nothing when silent, failure after the socket is closed |
| Connection.ClientConnection.Close | src/main/groovy/org/jggug/kobo/groovyserv/ClientConnection.groovy:128-148 | pipes torn down, input and socket closed, once |
| Connection.ClientConnection.TearDownTransferringPipes | src/main/groovy/org/jggug/kobo/groovyserv/ClientConnection.groovy:159-170 | only the pipe is torn down |
| Connection.ClientConnection.TransferStreamRequest | src/main/groovy/org/jggug/kobo/groovyserv/ClientConnection.groovy:96-105 | what the pipe takes of the bytes is appended; the exceptions of a broken or interrupted pipe and of one torn down before the call |
| StdinPath.SendToServer | src/main/c/session.c:399-427 | one read of stdin becomes one frame; an empty read closes stdin |
| StdinPath.RunTurn | src/main/groovy/org/jggug/kobo/groovyserv/StreamRequestHandler.groovy:46-71 | one turn forwards, tears down or stops as the recursive handler says, errors of socket and pipe and a connection closed by another thread included |
| StdinPath.BlockEnds | src/main/groovy/org/jggug/kobo/groovyserv/StreamRequest.groovy:29-48 | for every size and command, each there or not: refused, interrupted, torn down, negative, or at the end of the stream |
| StdinPath.FrameTexts | src/main/c/session.c:413-420 | the bytes of the client's frames, letter by letter |
| StdinPath.TornChunkDropped | src/main/groovy/org/jggug/kobo/groovyserv/StreamRequestHandler.groovy:66-67 | behind a torn pipe the handler reads on and drops what it reads |
| StdinPath.Run | src/main/groovy/org/jggug/kobo/groovyserv/StreamRequestHandler.groovy:42-93 | what reaches the pipe and how the handler ends are those of the recursive handler; the pipe always ends torn down |
| StdinPath.StdinForwarded | src/main/groovy/org/jggug/kobo/groovyserv/StreamRequestHandler.groovy:42-93 | exactly the concatenation of the typed chunks is forwarded, even when they look like headers, up to an interrupt, a closed stdin or the end |
| StdinPath.LastChunkForwardedIff | src/main/groovy/org/jggug/kobo/groovyserv/StreamRequestHandler.groovy:58-70 | a chunk behind chunks that arrived reaches the script if and only if its one read is full and the pipe takes it |
| StdinPath.TornPipeStaysDry | src/main/groovy/org/jggug/kobo/groovyserv/StreamRequestHandler.groovy:66-70 | nothing is forwarded once the pipe is torn down, whatever the client sends |
| StdinPath.ClientNeverTearsDown | src/main/groovy/org/jggug/kobo/groovyserv/StreamRequestHandler.groovy:52-56 | no frame of the C client does, not even that of a closed stdin |
| StdinPath.ShortReadLosesInput | src/main/groovy/org/jggug/kobo/groovyserv/StreamRequestHandler.groovy:58-70 | two bytes read one at a time: the second is lost and the session ends |
| StdinPath.RequestThenStdin | src/main/groovy/org/jggug/kobo/groovyserv/ClientProtocols.groovy:110-150 | on one stream, the request is read and the handler takes over at its last byte and forwards exactly what was typed |
| SessionSteps.StepKeepsInv | src/main/groovy/org/jggug/kobo/groovyserv/RequestWorker.groovy:110-181 | every step of every thread keeps the invariant of futures, threads and connection |
| SessionSteps.ReachableInv | src/main/groovy/org/jggug/kobo/groovyserv/RequestWorker.groovy:71-181 | every state reachable by any interleaving satisfies it |
| SessionSteps.SingleExit | src/main/groovy/org/jggug/kobo/groovyserv/RequestWorker.groovy:163-181 | at most one status attempted and one close, the two together; after termination the connection is gone and was closed exactly once |
| SessionSteps.FirstCloserSends | src/main/groovy/org/jggug/kobo/groovyserv/RequestWorker.groovy:163-175 | the one status comes from whoever entered closeSafely first in the run |
| SessionSteps.JointCompletion | src/main/groovy/org/jggug/kobo/groovyserv/RequestWorker.groovy:134-212 | once an afterExecute has passed closeSafely both futures are done and the status is the image of the first closer's outcome |
| SessionSteps.HookFindsNothing | src/main/groovy/org/jggug/kobo/groovyserv/RequestWorker.groovy:177-181 | the termination hook never sends anything |
| SessionSteps.TerminatedCodeIff | src/main/groovy/org/jggug/kobo/groovyserv/RequestWorker.groovy:177-212 | some run of a script's outcome sends TERMINATED if and only if that is the outcome's own status |
| SessionSteps.OnlyScriptsTerminate | src/main/groovy/org/jggug/kobo/groovyserv/RequestWorker.groovy:177-212 | in every run that sends TERMINATED the script's thread closed first and its outcome carries the number |
| SessionSteps.ExitWithFive | src/main/groovy/org/jggug/kobo/groovyserv/RequestWorker.groovy:200-203 | a script that exits with 5 is such a run |
| SessionSteps.OneIsCancelled | src/main/groovy/org/jggug/kobo/groovyserv/RequestWorker.groovy:145-152 | a cancelled handler means that the other one completed by itself |
| SessionSteps.OutcomeIsFinal | src/main/groovy/org/jggug/kobo/groovyserv/RequestWorker.groovy:147-152 | a future that is done keeps its outcome in every continuation |
| SessionSteps.StatusSent | src/main/groovy/org/jggug/kobo/groovyserv/RequestWorker.groovy:134-175 | the one status is the image of the future of whichever handler closed first, both being done |
| SessionSteps.QuietInputSendsScriptStatus | src/main/groovy/org/jggug/kobo/groovyserv/RequestWorker.groovy:134-161 | while the client sends nothing that ends the stream handler, and that handler began and is neither waiting for room in the pipe nor failed in it, the status is always the script's own |
| SessionSteps.ScriptStatusCertainIff | src/main/groovy/org/jggug/kobo/groovyserv/RequestWorker.groovy:134-161 | for every outcome and every choice of possible accidents, all runs send the script's status if and only if input end and pipe failure are excluded, and missed start and full pipe too unless the status is INTERRUPTED |
| SessionSteps.CancelledStreamIff | src/main/groovy/org/jggug/kobo/groovyserv/RequestWorker.groovy:145-160 | of the runs with a cancelled stream handler all send the script's status if and only if it is INTERRUPTED |
| SessionSteps.ScriptClosesFirst | src/main/groovy/org/jggug/kobo/groovyserv/RequestWorker.groovy:145-160 | for every outcome the usual run, which sends its status |
| SessionSteps.ScriptStatusCanBeLost | src/main/groovy/org/jggug/kobo/groovyserv/RequestWorker.groovy:145-160 | for every outcome an interleaving in which the stream handler, cancelled before it began, closes first and INTERRUPTED is sent |
| SessionSteps.InputOvertakesScript | src/main/groovy/org/jggug/kobo/groovyserv/RequestWorker.groovy:134-161 | for every outcome an interleaving in which the stream handler, ended by the input, closes first |
| SessionSteps.FullPipeOvertakesScript | src/main/groovy/org/jggug/kobo/groovyserv/ClientConnection.groovy:96-105 | for every outcome an interleaving in which the stream handler, interrupted in its write to the full pipe, closes first |
| SessionSteps.BrokenPipeOvertakesScript | src/main/groovy/org/jggug/kobo/groovyserv/ClientConnection.groovy:96-105 | for every outcome interleavings in which the stream handler, failed in the pipe, closes first with SUCCESS or INTERRUPTED |
| SessionSteps.BrokenPipeCancelsScript | src/main/groovy/org/jggug/kobo/groovyserv/ClientConnection.groovy:96-105 | a failed transfer cancels the running script and SUCCESS is sent |
| SessionSteps.InputCancelsScript | src/main/groovy/org/jggug/kobo/groovyserv/RequestWorker.groovy:145-152 | input that ends the stream handler while the script runs cancels the script |
| SessionSteps.RunsAreShort | src/main/groovy/org/jggug/kobo/groovyserv/RequestWorker.groovy:110-181 | fills and drains of the pipe aside, every interleaving ends within 26 steps |
| SessionSteps.EverySessionEnds | src/main/groovy/org/jggug/kobo/groovyserv/RequestWorker.groovy:110-181 | no deadlock, though the stream handler can block in reading the open socket or in writing to the full pipe: a session without a possible step has terminated after exactly one status and one close |
| SessionSteps.ClosingInHookOnlyHangs | src/main/groovy/org/jggug/kobo/groovyserv/RequestWorker.groovy:154-160 | were the connection closed by the hook alone, a session could hang behind every outcome of its script |
| RequestWorkers.StepWires | src/main/groovy/org/jggug/kobo/groovyserv/RequestWorker.groovy:163-175 | along every run the socket holds exactly the status frame the state records |
| RequestWorkers.RequestWorker.CloseSafely | src/main/groovy/org/jggug/kobo/groovyserv/RequestWorker.groovy:163-175 | sends and closes if and only if the connection is still there, and forgets it |
| RequestWorkers.RequestWorker.MainGoes | src/main/groovy/org/jggug/kobo/groovyserv/RequestWorker.groovy:81-116 | built-in commands and handleRequest take the steps of the state machine |
| RequestWorkers.RequestWorker.Perform | src/main/groovy/org/jggug/kobo/groovyserv/RequestWorker.groovy:133-181 | every step of a handler thread or the hook changes the fields and the socket as the state machine says |
| RequestWorkers.RequestWorker.RunAll | src/main/groovy/org/jggug/kobo/groovyserv/RequestWorker.groovy:71-181 | so does any interleaving, keeping the invariant |
| EndToEnd.WholeSession | src/main/c/session.c:451-527 | for all writes, interleavings, splittings and record contents the client prints exactly the writes and returns the status of the handler that closed first: 0 when it ran to its end, 1 interrupted or cancelled, the number of an exit or a server error, -1 for any other throwable |
| EndToEnd.SessionStatus | src/main/groovy/org/jggug/kobo/groovyserv/RequestWorker.groovy:134-212 | the status frame of a terminated session is that of its first closer |
| EndToEnd.ClosedStdinCancelsScript | src/main/groovy/org/jggug/kobo/groovyserv/StreamRequestHandler.groovy:46-75 | an interrupt or a merely closed stdin, behind any typed chunks, ends the stream handler with an interruption, and a run cancels the script and returns INTERRUPTED to the client |
| EndToEnd.QuietSessionReturnsScriptStatus | src/main/groovy/org/jggug/kobo/groovyserv/RequestWorker.groovy:134-212 | a session with quiet input, whose stream handler began and has no trouble with the pipe, ends with the client printing the script's writes and returning its own status |
| EndToEnd.QuietSessionNumbers | src/main/groovy/org/jggug/kobo/groovyserv/RequestWorker.groovy:183-212 | in a quiet session the client returns 0, 1, the number of the exit or server error, or -1, by what became of the script |
| EndToEnd.CommandAnswered | src/main/groovy/org/jggug/kobo/groovyserv/RequestWorker.groovy:81-92 | a ping or a shutdown is read as such and answered with 0 and nothing else |
| EndToEnd.OthersRun | src/main/groovy/org/jggug/kobo/groovyserv/RequestWorker.groovy:94-95 | a request of the C client is no built-in command |
| EndToEnd.HandlerEndNumbers | src/main/groovy/org/jggug/kobo/groovyserv/StreamRequestHandler.groovy:42-93 | the number the client receives for each end of the stream handler that cancels the script |
| EndToEnd.CloseEndsHandler | src/main/groovy/org/jggug/kobo/groovyserv/StreamRequestHandler.groovy:58-88 | behind the close the handler can end by its read's error or by the stream that is gone |
| Classpath.RemoveClasspathFromArgs | src/main/groovy/org/jggug/kobo/groovyserv/GroovyInvokeHandler.groovy:100-129 | the loop removes the options and joins the entries as the recursive extraction says, or throws and leaves the arguments alone |
| Classpath.ExtractReadsItems | src/main/groovy/org/jggug/kobo/groovyserv/GroovyInvokeHandler.groovy:103-115 | from well-formed pairs in any positions exactly those are removed, the rest keeps its order, and the paths are theirs in order |
| Classpath.ExtractSplits | src/main/groovy/org/jggug/kobo/groovyserv/GroovyInvokeHandler.groovy:107-110 | conversely every list is such a sequence, and it is refused exactly when an option ends it |
| Classpath.SecondRunIsNoOp | src/main/groovy/org/jggug/kobo/groovyserv/GroovyInvokeHandler.groovy:103-126 | extracting again from the result removes nothing |
| Classpath.AddAllIsDistinct | src/main/groovy/org/jggug/kobo/groovyserv/GroovyInvokeHandler.groovy:101-111 | the set of option paths is their de-duplication in the order of first occurrence |
| Classpath.EntriesAre | src/main/groovy/org/jggug/kobo/groovyserv/GroovyInvokeHandler.groovy:117-128 | distinct option paths with ".", or the Cp entries as they are with "." |
| Classpath.DotIsLastIff | src/main/groovy/org/jggug/kobo/groovyserv/GroovyInvokeHandler.groovy:122-123 | "." is always an entry, and the last exactly when no option path first occurs behind it |
| Classpath.DotInFront | src/main/groovy/org/jggug/kobo/groovyserv/GroovyInvokeHandler.groovy:103-128 | `-cp .:lib` gives "." and then "lib" |
| Classpath.ClasspathTextIs | src/main/groovy/org/jggug/kobo/groovyserv/GroovyInvokeHandler.groovy:103-128 | the class path text handed to the script, cut at the separator, is exactly the entries |
| Classpath.JoinedParts | src/main/groovy/org/jggug/kobo/groovyserv/GroovyInvokeHandler.groovy:128 | joining parts without separators and cutting gives them back |
| Classpath.PartsJoined | src/main/groovy/org/jggug/kobo/groovyserv/GroovyInvokeHandler.groovy:111 | cutting and joining gives the text back, and no part holds a separator |
| Classpath.SplitIs | src/main/groovy/org/jggug/kobo/groovyserv/GroovyInvokeHandler.groovy:111 | split gives all parts but the empty ones at the end |
| Classpath.Spellings | src/main/groovy/org/jggug/kobo/groovyserv/GroovyInvokeHandler.groovy:30 | the three spellings of the option, down to the text of the class path |
| Classpath.OtherWordStays | src/main/groovy/org/jggug/kobo/groovyserv/GroovyInvokeHandler.groovy:107-114 | any other word stays an argument |
| Environment.EnvironmentVariables.PutAll | src/main/groovy/org/jggug/kobo/groovyserv/GroovyInvokeHandler.groovy:89-94 | the cache after any puts, in order |
| Environment.LookupsAfterPuts | src/main/groovy/org/jggug/kobo/groovyserv/platform/EnvironmentVariables.groovy:41-85 | both lookups give the last value put, else the original one |
| Environment.LookupsAgreeIff | src/main/groovy/org/jggug/kobo/groovyserv/platform/EnvironmentVariables.groovy:41-85 | they disagree exactly on an original name whose last put had no '=' |
| Environment.LookupsAgree | src/main/groovy/org/jggug/kobo/groovyserv/platform/EnvironmentVariables.groovy:41-85 | for NAME=VALUE entries they agree on every name |
| Environment.PutIsFound | src/main/groovy/org/jggug/kobo/groovyserv/platform/EnvironmentVariables.groovy:74-85 | after a put of NAME=VALUE both lookups find exactly the VALUE, and other names as before |
| Environment.CurrentDirHolder.SetDir | src/main/groovy/org/jggug/kobo/groovyserv/platform/CurrentDirHolder.groovy:35-46 | sets every copy of the directory, or is refused and changes nothing |
| Environment.CurrentDirHolder.Reset | src/main/groovy/org/jggug/kobo/groovyserv/platform/CurrentDirHolder.groovy:48-56 | restores the original, if a directory is set |
| Environment.Enter | src/main/groovy/org/jggug/kobo/groovyserv/GroovyInvokeHandler.groovy:53-58 | a session is accepted, and will reset, exactly when it asked for a directory and was not refused |
| Environment.Leave | src/main/groovy/org/jggug/kobo/groovyserv/GroovyInvokeHandler.groovy:68-86 | resets unless refused or ended by an illegal-state error |
| Environment.DirsAgree | src/main/groovy/org/jggug/kobo/groovyserv/platform/CurrentDirHolder.groovy:35-56 | over every run of sessions the three copies of the directory agree after every call, and PWD too unless a session puts its own |
| Environment.FromTheStart | src/main/groovy/org/jggug/kobo/groovyserv/platform/CurrentDirHolder.groovy:26-56 | from the start of the server they agree over every run, and separate sessions hold the directory one at a time |
| Environment.PlayOne | src/main/groovy/org/jggug/kobo/groovyserv/GroovyInvokeHandler.groovy:53-86 | beginning, entry and end of a session change the objects as the event says |
| Environment.PlayAll | src/main/groovy/org/jggug/kobo/groovyserv/GroovyInvokeHandler.groovy:49-94 | any run of sessions on the shared objects ends in the world of the events |
| Environment.ServerRun | src/main/groovy/org/jggug/kobo/groovyserv/platform/CurrentDirHolder.groovy:26-56 | so does a server's whole life, with all that is proved about runs from the start |
| Environment.RefusedIff | src/main/groovy/org/jggug/kobo/groovyserv/platform/CurrentDirHolder.groovy:36-41 | a session is refused exactly when a running one holds another directory, and then every continuation goes as if it had not come |
| Environment.BeginKeepsFaithful | src/main/groovy/org/jggug/kobo/groovyserv/platform/CurrentDirHolder.groovy:35-46 | no beginning takes a running session's directory away |
| Environment.EndKeepsFaithfulIff | src/main/groovy/org/jggug/kobo/groovyserv/GroovyInvokeHandler.groovy:68-84 | an end keeps all running sessions in their directories exactly when the last session resets and no other does |
| Environment.SeparateSessions | src/main/groovy/org/jggug/kobo/groovyserv/platform/CurrentDirHolder.groovy:35-56 | if overlapping sessions never share a directory, at most one holds it, it is its own, and the original is back when it ends |
| Environment.SharingMovesASession | src/main/groovy/org/jggug/kobo/groovyserv/platform/CurrentDirHolder.groovy:48-56 | with a shared directory a third session is accepted elsewhere while the second still runs |
| Environment.PwdRestoredIff | src/main/groovy/org/jggug/kobo/groovyserv/platform/CurrentDirHolder.groovy:27-53 | over every run of sessions that ends without a holder, PWD is what it was exactly when it was set at the start or no session held a directory |
| Text.DecimalRoundTrip | src/main/c/session.c:508 | atoi and the server's integer parsing undo decimal printing, negative numbers included |
| Text.AtoiReadsFront | src/main/c/session.c:508 | atoi reads a number behind blanks and stops at the first character that is no digit |
| Text.PlusSign | src/main/groovy/org/jggug/kobo/groovyserv/StreamRequest.groovy:37-39 | both integer parsers read over a plus sign |
| Text.DecimalExamples | src/main/groovy/org/jggug/kobo/groovyserv/ClientProtocols.groovy:206 | numbers are printed to the base ten |
| Text.ParseIntegerRefuses | src/main/groovy/org/jggug/kobo/groovyserv/StreamRequest.groovy:37-39 | the server's integer parsing takes a sign and digits only |

## Left out

- Sockets, name lookup, select, signals and the Windows variants: only the bytes they carry are modelled. The two directions of a
  session are independent byte streams.
- Short writes, character sets and memory visibility of the JVM: writes are complete, strings are transparent to bytes, memory is sequentially consistent.
- StdinPath.StdinForwarded: assumes that every read of a body is full and no transfer breaks the pipe. The converse is proved for the last chunk (`LastChunkForwardedIff`); for an earlier chunk a short read turns typed bytes into headers, and what follows depends on their content.
- ResponseRoundTrip.ResponseDemultiplexed: assumes that frames reach the socket one at a time; `InterleavedBodyRightIff` says what happens to the first of two that do not.
- StdinPath.Run: a connection closed by another thread is met at the start of a turn or in the transfer, and a read that fails loses the rest of the stream.
- RequestWorkers.RequestWorker.MainGoes: the empty request, the rejected request and a failed submission are not modelled.
- EndToEnd.WholeSession: the script's writes precede the status frame; writes of a script that survives its session are not part of it.
- ClientSession.ReadHeaders: stops at an eleventh header, where the C code writes behind its records, and a line that fills the buffer without a NUL ends with the buffer.
- Text.DecimalRoundTrip: atoi and sscanf are modelled on unbounded integers, the server's parsing with the range of an int.
- Buf.Buffer.Apply: capacities are unbounded integers, and allocation does not fail; buf_init with an initial text, buf_nstrcopy and buf_delete are not modelled.
- Library functions of C and Java (strchr, strstr, strncpy, strtok, vsnprintf, trim, split, the Base64 decoder of RFC 4648 section 4) are functions on byte strings rather than loops.
- SessionSteps.EverySessionEnds: a script may end at any time with any outcome, and is assumed to end.
- SessionSteps.ScriptStatusCertainIff: which of the possible interleavings the scheduler prefers is open.
- EndToEnd.ClosedStdinCancelsScript: shows one such run; a script that is done first is not cancelled.
- The "simple" protocol, apart from its suppression of headers and of the status frame.
- User scripts, GroovyMain2, the security manager, killing of sub-threads: a script is a sequence of writes and an outcome.
- Native setenv and chdir are assignments to the model's state; the path separator is that of Unix.
- The other methods of GroovyClient (input, interrupt, ping, shutdown, connect), ServerCLI, token and work files, and the shell, batch and Ruby clients.
