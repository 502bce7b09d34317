/** The stdin path: send_to_server frames what the user types, StreamRequestHandler forwards it to the script. */
module StdinPath {
  import opened Text
  import opened Sockets
  import opened Headers
  import opened Response
  import opened Connection
  import Request

  // ----- the client -----

  function StdinFrame(chunk: string): string {
    Formatted([Entry("Size", [Decimal(|chunk|)])], chunk)
  }

  /** What the client's SIGINT handler writes. */
  function InterruptFrame(): string {
    Formatted([Entry("Cmd", ["interrupt"])], "")
  }

  function StdinFrames(chunks: seq<string>): string {
    if chunks == [] then "" else StdinFrame(chunks[0]) + StdinFrames(chunks[1..])
  }

  /** send_to_server for one read of stdin; an empty read reports that stdin is closed. */
  method SendToServer(fd: OutputStream, readBuf: string) returns (stdinClosed: bool)
    modifies fd
    ensures fd.sent == old(fd.sent) + StdinFrame(readBuf)
    ensures stdinClosed <==> readBuf == ""
  {
    var writeBuf := "Size: " + Decimal(|readBuf|) + [LF, LF];
    OneEntryText("Size", Decimal(|readBuf|), readBuf);
    assert writeBuf + readBuf == StdinFrame(readBuf) by {
      hide Decimal;
    }
    fd.Write(writeBuf);
    fd.Write(readBuf);
    stdinClosed := |readBuf| == 0;
  }

  lemma OneEntryText(key: string, value: string, body: string)
    requires key != ""
    ensures Formatted([Entry(key, [value])], body) == key + ": " + value + [LF, LF] + body
  {
    var line := HeaderLine(key, value);
    assert EntryLines(key, [value]) == [line];
    assert [Entry(key, [value])][1..] == [] && [line][1..] == [];
    assert FormatLines([Entry(key, [value])]) == [line];
    assert Terminated([line]) == line + [LF];
    assert line + [LF] + [LF] == key + ": " + value + [LF, LF];
  }

  /** The client's frames on the wire, letter by letter. */
  lemma FrameTexts(chunk: string)
    ensures StdinFrame(chunk) == "Size: " + Decimal(|chunk|) + "\n\n" + chunk
    ensures InterruptFrame() == "Cmd: interrupt\n\n"
  {
    hide Decimal, Formatted;
    OneEntryText("Size", Decimal(|chunk|), chunk);
    OneEntryText("Cmd", "interrupt", "");
  }

  // ----- StreamRequest -----

  datatype StreamRequest = StreamRequest(size: Option<string>, command: Option<string>) {
    function GetSize(): int {
      if size.None? then 0
      else
        match ParseInteger(size.value)
        case Some(n) => n
        case None => 0
    }

    predicate IsEmpty() {
      GetSize() == 0
    }

    predicate IsInterrupted() {
      command == Some("interrupt")
    }

    predicate HasCommand() {
      command.Some? && command.value != ""
    }

    /** check() throws unless exactly one of size and command says something. */
    predicate Checked() {
      !((!IsEmpty() && HasCommand()) || (IsEmpty() && !HasCommand()))
    }
  }

  function RequestIn(text: string): StreamRequest {
    var headers := Parsed(BlockLines(text));
    StreamRequest(First(headers, "Size"), First(headers, "Cmd"))
  }

  // ----- StreamRequestHandler -----

  datatype HandlerEnd =
    | ByClientRequest | ByInvalidRequest | ByEndOfStream | ByNegativeSize
    | ByIOError | ByPipeError | ByClosedConnection

  /**
   What is not up to the handler: how much the k-th read of a body delivers, what the k-th transfer meets, whether
   another thread has closed the connection by then, and whether the socket's bytes end in an error.
   */
  datatype World = World(picks: nat -> nat, pipe: nat -> PipeFate, gone: nat -> bool, broken: bool)

  datatype Handling = Handling(forwarded: string, end: HandlerEnd)

  function Forwarding(bytes: string, later: Handling): Handling {
    Handling(bytes + later.forwarded, later.end)
  }

  /** One turn of the handler's loop; `used` counts the reads of a body. */
  datatype Turn = Stops(bytes: string, end: HandlerEnd) | Goes(bytes: string, rest: string, torn: bool, used: nat)

  /** `torn` says whether the pipe is already torn down; `k` bodies have been read. */
  function OneTurn(text: string, torn: bool, w: World, k: nat): (turn: Turn)
    ensures turn.Goes? ==> |turn.rest| < |text|
  {
    var request, rest := RequestIn(text), AfterBlock(text);
    if w.gone(k) then Stops("", ByClosedConnection)
    else if w.broken && !Complete(text) then Stops("", ByIOError)
    else if text == "" || !request.Checked() then Stops("", ByInvalidRequest)
    else if request.IsInterrupted() then Stops("", ByClientRequest)
    else if request.IsEmpty() then Goes("", rest, true, 0)
    else if request.GetSize() < 0 then Stops("", ByNegativeSize)
    else if rest == "" then Stops("", if w.broken then ByIOError else ByEndOfStream)
    else
      var n := Delivered(request.GetSize(), |rest|, w.picks(k));
      if torn then Goes("", rest[n..], torn, 1)
      else
        match w.pipe(k)
        case Takes => Goes(rest[..n], rest[n..], torn, 1)
        case Breaks(_) => Stops(Taken(rest[..n], w.pipe(k)), ByPipeError)
        case Gone => Stops("", ByClosedConnection)
  }

  /** The handler over the bytes of the socket, `k` bodies having been read before. */
  function Handled(text: string, torn: bool, w: World, k: nat): Handling
    decreases |text|
  {
    match OneTurn(text, torn, w, k)
    case Stops(bytes, end) => Handling(bytes, end)
    case Goes(bytes, rest, t, used) => Forwarding(bytes, Handled(rest, t, w, k + used))
  }

  lemma EmptyTextInvalid()
    ensures !RequestIn("").Checked()
  {
    assert LineOf("") == "";
    ParsedNone();
  }

  method ReadStreamRequest(ins: Socket) returns (request: Option<StreamRequest>)
    modifies ins`rest, ins`failed
    ensures ins.rest == AfterBlock(old(ins.rest))
    ensures request == if ins.broken && !Complete(old(ins.rest)) then None else Some(RequestIn(old(ins.rest)))
  {
    var headers := ParseHeaders(ins);
    request := if headers.None? then None
               else Some(StreamRequest(First(headers.value, "Size"), First(headers.value, "Cmd")));
  }

  /** The world of a handler on this socket. */
  function WorldOf(ins: Socket, pipe: nat -> PipeFate, gone: nat -> bool): World {
    World(ins.picks, pipe, gone, ins.broken)
  }

  /** The body of the handler's loop. */
  method RunTurn(conn: ClientConnection, ins: Socket, pipe: nat -> PipeFate, gone: nat -> bool)
    returns (stop: Option<HandlerEnd>)
    requires conn.Valid()
    modifies conn, ins
    ensures conn.Valid() && conn.closed == old(conn.closed)
    ensures var turn := OneTurn(old(ins.rest), old(conn.toreDownPipes), WorldOf(ins, pipe, gone), old(ins.calls));
            && conn.piped == old(conn.piped) + turn.bytes
            && (turn.Stops? ==> stop == Some(turn.end))
            && (turn.Goes? ==>
                  && stop == None && ins.rest == turn.rest && ins.calls == old(ins.calls) + turn.used
                  && conn.toreDownPipes == turn.torn)
    ensures stop == None ==> |ins.rest| < |old(ins.rest)|
  {
    EmptyTextInvalid();
    hide RequestIn, AfterBlock, Complete, Taken;
    assert conn.piped + "" == conn.piped;
    var k := ins.calls;
    if gone(k) {
      return Some(ByClosedConnection);
    }
    var read := ReadStreamRequest(ins);
    if read.None? {
      return Some(ByIOError);
    }
    var request := read.value;
    if !request.Checked() {
      return Some(ByInvalidRequest);
    }
    if request.IsInterrupted() {
      return Some(ByClientRequest);
    }
    if request.IsEmpty() {
      conn.TearDownTransferringPipes();
      return None;
    }
    if request.GetSize() < 0 {
      return Some(ByNegativeSize);
    }
    var chunk := ins.Read(request.GetSize());
    if ins.failed {
      return Some(ByIOError);
    }
    if chunk == "" {
      return Some(ByEndOfStream);
    }
    if !conn.toreDownPipes {
      TakenWhole(chunk);
      var met := conn.TransferStreamRequest(chunk, pipe(k));
      if met.Breaks? {
        return Some(ByPipeError);
      }
      if met.Gone? {
        return Some(ByClosedConnection);
      }
    }
    stop := None;
  }

  lemma TakenWhole(bytes: string)
    ensures Taken(bytes, Takes) == bytes && Taken(bytes, Gone) == ""
  {
  }

  /** Handled, one turn at a time. */
  lemma HandledTurn(text: string, torn: bool, w: World, k: nat, turn: Turn)
    requires turn == OneTurn(text, torn, w, k)
    ensures turn.Stops? ==> Handled(text, torn, w, k) == Handling(turn.bytes, turn.end)
    ensures turn.Goes? ==>
              Handled(text, torn, w, k)
              == Forwarding(turn.bytes, Handled(turn.rest, turn.torn, w, k + turn.used))
  {
    hide OneTurn;
  }

  /** `out` has been forwarded and the handler goes on with the rest. */
  ghost predicate Goal(whole: Handling, out: string, text: string, torn: bool, w: World, k: nat) {
    whole == Forwarding(out, Handled(text, torn, w, k))
  }

  lemma GoalStarts(text: string, torn: bool, w: World, k: nat)
    ensures Goal(Handled(text, torn, w, k), "", text, torn, w, k)
  {
    hide Handled;
    assert Forwarding("", Handled(text, torn, w, k)) == Handled(text, torn, w, k);
  }

  lemma GoalTurn(whole: Handling, out: string, text: string, torn: bool, w: World, k: nat, turn: Turn)
    requires Goal(whole, out, text, torn, w, k) && turn == OneTurn(text, torn, w, k)
    ensures turn.Stops? ==> whole == Handling(out + turn.bytes, turn.end)
    ensures turn.Goes? ==> Goal(whole, out + turn.bytes, turn.rest, turn.torn, w, k + turn.used)
  {
    HandledTurn(text, torn, w, k, turn);
    hide OneTurn, Handled;
    if turn.Goes? {
      Assoc(out, turn.bytes, Handled(turn.rest, turn.torn, w, k + turn.used).forwarded);
    }
  }

  /** StreamRequestHandler.run. However it ends, the pipe ends torn down. */
  method Run(conn: ClientConnection, ins: Socket, pipe: nat -> PipeFate, gone: nat -> bool) returns (end: HandlerEnd)
    requires conn.Valid()
    modifies conn, ins
    ensures conn.Valid() && conn.toreDownPipes && conn.closed == old(conn.closed)
    ensures var h := Handled(old(ins.rest), old(conn.toreDownPipes), WorldOf(ins, pipe, gone), old(ins.calls));
            end == h.end && conn.piped == old(conn.piped) + h.forwarded
  {
    hide OneTurn, Handled, Forwarding, Goal, Complete;
    ghost var w := WorldOf(ins, pipe, gone);
    ghost var whole, out := Handled(ins.rest, conn.toreDownPipes, w, ins.calls), "";
    ghost var text, torn, k := ins.rest, conn.toreDownPipes, ins.calls;
    GoalStarts(text, torn, w, k);
    ghost var piped := conn.piped;
    assert piped + "" == piped;
    var stop: Option<HandlerEnd> := None;
    ghost var left := |ins.rest| + 1;
    while stop == None
      invariant conn.Valid() && conn.closed == old(conn.closed)
      invariant left == if stop == None then |text| + 1 else 0
      invariant conn.piped == piped + out
      invariant stop == None ==> ins.rest == text && conn.toreDownPipes == torn && ins.calls == k
      invariant stop == None ==> Goal(whole, out, text, torn, w, k)
      invariant stop.Some? ==> whole == Handling(out, stop.value)
      decreases left
    {
      ghost var turn := OneTurn(text, torn, w, k);
      GoalTurn(whole, out, text, torn, w, k, turn);
      stop := RunTurn(conn, ins, pipe, gone);
      left := if turn.Goes? then |turn.rest| + 1 else 0;
      Assoc(piped, out, turn.bytes);
      out := out + turn.bytes;
      if turn.Goes? {
        text, torn, k := turn.rest, turn.torn, k + turn.used;
      }
    }
    end := stop.value;
    conn.TearDownTransferringPipes();
  }

  lemma AfterBlockShorter(text: string)
    ensures text != "" ==> |AfterBlock(text)| < |text|
  {
  }

  // ----- framing -----

  lemma OneEntryParsed(key: string, value: string, body: string)
    requires GoodKey(key) && LF !in value && Trimmed(value)
    ensures var text := Formatted([Entry(key, [value])], body);
            && AfterBlock(text) == body && Parsed(BlockLines(text)) == map[key := [value]] && text != ""
  {
    var entries := [Entry(key, [value])];
    assert GoodEntries(entries) by {
      assert forall j :: 0 <= j < 1 ==> LF !in [value][j];
    }
    HeaderRoundTrip(entries, body);
    TrimFixpoint(value);
    assert Trims([value]) == [value];
    assert entries[1..] == [];
    assert MapOf(entries) == map[key := [value]];
  }

  lemma ChunkRequest(chunk: string, rest: string)
    requires Int32(|chunk|)
    ensures var text := StdinFrame(chunk) + rest;
            && text != "" && AfterBlock(text) == chunk + rest
            && RequestIn(text) == StreamRequest(Some(Decimal(|chunk|)), None)
            && RequestIn(text).GetSize() == |chunk|
  {
    hide Decimal, Parsed, BlockLines, AfterBlock, ParseInteger;
    var n := Decimal(|chunk|);
    DecimalIsClean(|chunk|);
    DecimalRoundTrip(|chunk|);
    assert StdinFrame(chunk) + rest == Formatted([Entry("Size", [n])], chunk + rest);
    OneEntryParsed("Size", n, chunk + rest);
    assert "Cmd" != "Size" by {
      assert |"Cmd"| == 3;
    }
  }

  lemma InterruptRequest(rest: string)
    ensures var text := InterruptFrame() + rest;
            && text != "" && AfterBlock(text) == rest
            && RequestIn(text) == StreamRequest(None, Some("interrupt"))
  {
    assert InterruptFrame() + rest == Formatted([Entry("Cmd", ["interrupt"])], rest);
    assert Trimmed("interrupt") && LF !in "interrupt";
    OneEntryParsed("Cmd", "interrupt", rest);
    assert "Cmd" != "Size" by {
      assert |"Cmd"| == 3;
    }
  }

  /** A block with no line left open is complete. */
  lemma {:induction false} TerminatedIsComplete(lines: seq<string>, body: string)
    requires forall i :: 0 <= i < |lines| ==> lines[i] != "" && LF !in lines[i]
    ensures Complete(Terminated(lines) + [LF] + body)
  {
    var s := Terminated(lines) + [LF] + body;
    assert s[|Terminated(lines)|] == LF;
    if lines == [] {
      assert s == [LF] + body && IndexOf(s, LF) == 0;
    } else {
      var t := Terminated(lines[1..]) + [LF] + body;
      LineRoundTrip(lines[0], t);
      assert s == lines[0] + [LF] + t;
      TerminatedIsComplete(lines[1..], body);
    }
  }

  lemma OneEntryComplete(key: string, value: string, body: string)
    requires GoodKey(key) && LF !in value
    ensures Complete(Formatted([Entry(key, [value])], body))
  {
    var entries := [Entry(key, [value])];
    assert GoodEntries(entries) by {
      assert forall j :: 0 <= j < 1 ==> LF !in [value][j];
    }
    FormatLinesAreLines(entries);
    TerminatedIsComplete(FormatLines(entries), body);
  }

  /** A frame is its header block before whatever follows. */
  lemma EntryThenRest(key: string, value: string, body: string, rest: string)
    ensures Formatted([Entry(key, [value])], body) + rest == Formatted([Entry(key, [value])], body + rest)
  {
    hide FormatLines, Terminated;
  }

  lemma ClientFramesComplete(chunk: string, rest: string)
    ensures Complete(StdinFrame(chunk) + rest) && Complete(InterruptFrame() + rest)
  {
    hide Complete, FormatLines, Terminated, Decimal, Formatted;
    DecimalIsClean(|chunk|);
    OneEntryComplete("Size", Decimal(|chunk|), chunk + rest);
    EntryThenRest("Size", Decimal(|chunk|), chunk, rest);
    assert LF !in "interrupt" && GoodKey("Cmd");
    OneEntryComplete("Cmd", "interrupt", "" + rest);
    EntryThenRest("Cmd", "interrupt", "", rest);
  }

  /** The turn that takes a frame with a body. */
  lemma ChunkTurn(chunk: string, rest: string, w: World, k: nat)
    requires chunk != "" && Int32(|chunk|)
    ensures var n := Delivered(|chunk|, |chunk + rest|, w.picks(k));
            OneTurn(StdinFrame(chunk) + rest, false, w, k)
            == if w.gone(k) || w.pipe(k).Gone? then Stops("", ByClosedConnection)
               else if w.pipe(k).Breaks? then Stops(Taken((chunk + rest)[..n], w.pipe(k)), ByPipeError)
               else Goes((chunk + rest)[..n], (chunk + rest)[n..], false, 1)
  {
    hide RequestIn, AfterBlock, StdinFrame, Decimal, ParseInteger, Complete, Taken;
    ChunkRequest(chunk, rest);
    ClientFramesComplete(chunk, rest);
  }

  /** The one read that the handler gives a body delivers all of it, and the pipe takes it. */
  predicate Arrives(chunk: string, w: World, k: nat) {
    !w.gone(k) && Delivered(|chunk|, |chunk|, w.picks(k)) == |chunk| && Taken(chunk, w.pipe(k)) == chunk
  }

  /** It arrives and the handler goes on. */
  predicate Passes(chunk: string, w: World, k: nat) {
    Arrives(chunk, w, k) && w.pipe(k) == Takes
  }

  /** One frame with a body that arrives is forwarded as it was typed. */
  lemma ChunkHandled(chunk: string, rest: string, w: World, k: nat)
    requires chunk != "" && Int32(|chunk|) && Passes(chunk, w, k)
    ensures Handled(StdinFrame(chunk) + rest, false, w, k) == Forwarding(chunk, Handled(rest, false, w, k + 1))
  {
    hide OneTurn, StdinFrame, Handled;
    ChunkTurn(chunk, rest, w, k);
    HandledTurn(StdinFrame(chunk) + rest, false, w, k, OneTurn(StdinFrame(chunk) + rest, false, w, k));
    assert (chunk + rest)[..|chunk|] == chunk && (chunk + rest)[|chunk|..] == rest;
  }

  /** What may follow the typed chunks: an interrupt, the frame of a closed stdin, or the end of the connection. */
  datatype Terminator = Interrupt(rest: string) | StdinClosed(rest: string) | HalfClosed

  function TerminatorText(t: Terminator): string {
    match t
    case Interrupt(rest) => InterruptFrame() + rest
    case StdinClosed(rest) => StdinFrame("") + rest
    case HalfClosed => ""
  }

  function TerminatorEnd(t: Terminator, w: World, k: nat): HandlerEnd {
    if w.gone(k) then ByClosedConnection else
    match t
    case Interrupt(_) => ByClientRequest
    case StdinClosed(_) => ByInvalidRequest
    case HalfClosed => if w.broken then ByIOError else ByInvalidRequest
  }

  lemma TerminatorHandled(t: Terminator, w: World, k: nat)
    ensures Handled(TerminatorText(t), false, w, k) == Handling("", TerminatorEnd(t, w, k))
  {
    hide OneTurn, TerminatorText;
    TerminatorTurn(t, w, k);
  }

  lemma TerminatorTurn(t: Terminator, w: World, k: nat)
    ensures OneTurn(TerminatorText(t), false, w, k) == Stops("", TerminatorEnd(t, w, k))
  {
    hide RequestIn, AfterBlock, InterruptFrame, StdinFrame, Decimal, ParseInteger;
    if t.Interrupt? {
      InterruptRequest(t.rest);
      ClientFramesComplete("", t.rest);
    } else if t.StdinClosed? {
      ChunkRequest("", t.rest);
      ClientFramesComplete("", t.rest);
    }
  }

  ghost predicate Typed(chunks: seq<string>) {
    forall i :: 0 <= i < |chunks| ==> chunks[i] != "" && Int32(|chunks[i]|)
  }

  /** Every read delivers all of its body, and no transfer breaks the pipe. */
  ghost predicate AllArrive(chunks: seq<string>, w: World, k: nat) {
    forall i :: 0 <= i < |chunks| ==> Passes(chunks[i], w, k + i)
  }

  lemma LaterArrive(chunks: seq<string>, w: World, k: nat)
    requires AllArrive(chunks, w, k) && chunks != []
    ensures AllArrive(chunks[1..], w, k + 1)
  {
    hide Passes;
    forall i | 0 <= i < |chunks[1..]| ensures Passes(chunks[1..][i], w, k + 1 + i) {
      assert Passes(chunks[i + 1], w, k + (i + 1));
    }
  }

  /** Chunks that arrive are forwarded in order, and the handler goes on with what follows them. */
  lemma {:induction false} ChunksHandled(chunks: seq<string>, after: string, w: World, k: nat)
    requires Typed(chunks) && AllArrive(chunks, w, k)
    ensures Handled(StdinFrames(chunks) + after, false, w, k)
         == Forwarding(Concat(chunks), Handled(after, false, w, k + |chunks|))
    decreases |chunks|
  {
    hide Handled, StdinFrame, Passes;
    if chunks == [] {
      assert StdinFrames(chunks) + after == after;
      assert "" + Handled(after, false, w, k).forwarded == Handled(after, false, w, k).forwarded;
    } else {
      var rest := StdinFrames(chunks[1..]) + after;
      assert chunks[0] != "" && Passes(chunks[0], w, k + 0);
      assert Typed(chunks[1..]);
      LaterArrive(chunks, w, k);
      ChunkHandled(chunks[0], rest, w, k);
      ChunksHandled(chunks[1..], after, w, k + 1);
      Assoc(StdinFrame(chunks[0]), StdinFrames(chunks[1..]), after);
      Assoc(chunks[0], Concat(chunks[1..]), Handled(after, false, w, k + |chunks|).forwarded);
    }
  }

  /**
   The handler forwards exactly the concatenation of the typed chunks, whatever bytes they
   hold, and ends at the first interrupt, at the frame of a closed stdin, which check() refuses
   before isEmpty() is asked, or at the end of the connection.
   */
  lemma StdinForwarded(chunks: seq<string>, t: Terminator, w: World, k: nat)
    requires Typed(chunks) && AllArrive(chunks, w, k)
    ensures Handled(StdinFrames(chunks) + TerminatorText(t), false, w, k)
         == Handling(Concat(chunks), TerminatorEnd(t, w, k + |chunks|))
  {
    hide Handled, TerminatorText;
    ChunksHandled(chunks, TerminatorText(t), w, k);
    TerminatorHandled(t, w, k + |chunks|);
    assert Concat(chunks) + "" == Concat(chunks);
  }

  /** Every turn spends at least one byte on a header. */
  lemma {:induction false} ForwardedIsShorter(text: string, torn: bool, w: World, k: nat)
    ensures |Handled(text, torn, w, k).forwarded| <= |text|
    ensures text != "" ==> |Handled(text, torn, w, k).forwarded| < |text|
    decreases |text|
  {
    hide OneTurn, Handled;
    var turn := OneTurn(text, torn, w, k);
    HandledTurn(text, torn, w, k, turn);
    TurnSpends(text, torn, w, k);
    if turn.Goes? {
      ForwardedIsShorter(turn.rest, turn.torn, w, k + turn.used);
    }
  }

  lemma TurnSpends(text: string, torn: bool, w: World, k: nat)
    ensures var turn := OneTurn(text, torn, w, k);
            && (turn.Goes? ==> |turn.bytes| + |turn.rest| < |text|)
            && (turn.Stops? ==> |turn.bytes| <= |text| && (text != "" ==> |turn.bytes| < |text|))
  {
    hide RequestIn, AfterBlock, Complete, Taken;
    if text != "" {
      AfterBlockShorter(text);
    }
  }

  /**
   Exactly then: after chunks that arrived, the last one reaches the script if and only if its one
   read is full and the pipe takes it. A short read leaves the rest of the body to be parsed as a header.
   */
  lemma LastChunkForwardedIff(chunks: seq<string>, last: string, w: World, k: nat)
    requires Typed(chunks) && AllArrive(chunks, w, k) && last != "" && Int32(|last|)
    ensures Handled(StdinFrames(chunks) + StdinFrame(last), false, w, k).forwarded == Concat(chunks) + last
       <==> Arrives(last, w, k + |chunks|)
  {
    hide Handled, StdinFrame, Arrives;
    var n := k + |chunks|;
    ChunksHandled(chunks, StdinFrame(last), w, k);
    LoneChunk(last, w, n);
    var forwarded := Handled(StdinFrame(last), false, w, n).forwarded;
    if forwarded != last {
      assert |Concat(chunks) + forwarded| < |Concat(chunks) + last|;
    }
  }

  lemma LoneChunk(last: string, w: World, k: nat)
    requires last != "" && Int32(|last|)
    ensures var forwarded := Handled(StdinFrame(last), false, w, k).forwarded;
            if Arrives(last, w, k) then forwarded == last else |forwarded| < |last|
  {
    hide Handled, StdinFrame, OneTurn;
    assert StdinFrame(last) + "" == StdinFrame(last) && last + "" == last;
    var n := Delivered(|last|, |last|, w.picks(k));
    ChunkTurn(last, "", w, k);
    HandledTurn(StdinFrame(last), false, w, k, OneTurn(StdinFrame(last), false, w, k));
    ForwardedIsShorter(last[n..], false, w, k + 1);
    if n == |last| {
      assert last[..n] == last && Handled(last[n..], false, w, k + 1).forwarded == "";
    }
  }

  /** A request with these two headers, each there or not. */
  function RequestBlock(size: seq<string>, command: seq<string>): seq<Entry> {
    [Entry("Size", size), Entry("Cmd", command)]
  }

  lemma RequestBlockRead(size: seq<string>, command: seq<string>, rest: string)
    requires |size| <= 1 && |command| <= 1
    requires forall i :: 0 <= i < |size| ==> LF !in size[i] && Trimmed(size[i])
    requires forall i :: 0 <= i < |command| ==> LF !in command[i] && Trimmed(command[i])
    ensures var text := Formatted(RequestBlock(size, command), rest);
            && Complete(text) && AfterBlock(text) == rest && text != ""
            && RequestIn(text) == StreamRequest(if size == [] then None else Some(size[0]),
                                                if command == [] then None else Some(command[0]))
  {
    var entries := RequestBlock(size, command);
    assert GoodEntries(entries) by {
      assert |"Size"| == 4 && |"Cmd"| == 3;
    }
    HeaderRoundTrip(entries, rest);
    FormatLinesAreLines(entries);
    TerminatedIsComplete(FormatLines(entries), rest);
    MapOfAt(entries, 0);
    MapOfAt(entries, 1);
    if size != [] {
      TrimFixpoint(size[0]);
      assert Trims(size)[0] == size[0];
    }
    if command != [] {
      TrimFixpoint(command[0]);
      assert Trims(command)[0] == command[0];
    }
    hide Parsed, BlockLines, AfterBlock, Complete, MapOf, GoodEntries, Trims, FormatLines, Terminated;
  }

  /**
   How the handler ends for every kind of header block: check() refuses a size with a command and neither of them,
   a size that is no number counting as none; a negative size cannot be read.
   */
  lemma BlockEnds(size: seq<string>, command: seq<string>, rest: string, w: World, k: nat)
    requires |size| <= 1 && |command| <= 1 && !w.gone(k)
    requires forall i :: 0 <= i < |size| ==> LF !in size[i] && Trimmed(size[i])
    requires forall i :: 0 <= i < |command| ==> LF !in command[i] && Trimmed(command[i]) && command[i] != ""
    ensures var n := if size != [] && ParseInteger(size[0]).Some? then ParseInteger(size[0]).value else 0;
            var turn := OneTurn(Formatted(RequestBlock(size, command), rest), false, w, k);
            && (n != 0 && command != [] ==> turn == Stops("", ByInvalidRequest))
            && (n == 0 && command == [] ==> turn == Stops("", ByInvalidRequest))
            && (n == 0 && command == ["interrupt"] ==> turn == Stops("", ByClientRequest))
            && (n == 0 && command != [] && command != ["interrupt"] ==> turn == Goes("", rest, true, 0))
            && (n < 0 && command == [] ==> turn == Stops("", ByNegativeSize))
            && (n > 0 && command == [] && rest == "" ==>
                  turn == Stops("", if w.broken then ByIOError else ByEndOfStream))
  {
    hide RequestIn, AfterBlock, Complete, Formatted, RequestBlock, ParseInteger, Taken;
    RequestBlockRead(size, command, rest);
  }

  /** Nothing reaches the script once the pipe is torn down, whatever the client still sends. */
  lemma {:induction false} TornPipeStaysDry(text: string, w: World, k: nat)
    ensures Handled(text, true, w, k).forwarded == ""
    decreases |text|
  {
    hide OneTurn, Handled;
    var turn := OneTurn(text, true, w, k);
    HandledTurn(text, true, w, k, turn);
    TornTurn(text, w, k);
    if turn.Goes? {
      TornPipeStaysDry(turn.rest, w, k + turn.used);
    }
  }

  /** Behind a torn pipe the handler reads on and drops what it reads. */
  lemma TornChunkDropped(chunk: string, rest: string, w: World, k: nat)
    requires chunk != "" && Int32(|chunk|) && !w.gone(k)
    ensures var n := Delivered(|chunk|, |chunk + rest|, w.picks(k));
            OneTurn(StdinFrame(chunk) + rest, true, w, k) == Goes("", (chunk + rest)[n..], true, 1)
  {
    hide RequestIn, AfterBlock, StdinFrame, Decimal, ParseInteger, Complete, Taken;
    ChunkRequest(chunk, rest);
    ClientFramesComplete(chunk, rest);
  }

  lemma TornTurn(text: string, w: World, k: nat)
    ensures var turn := OneTurn(text, true, w, k); turn.bytes == "" && (turn.Goes? ==> turn.torn)
  {
    hide RequestIn, AfterBlock, Complete, Taken;
  }

  /** The branch of the handler that tears the pipe down and waits for an interruption. */
  predicate TearsDown(turn: Turn) {
    turn.Goes? && turn.torn
  }

  /**
   No frame of the C client reaches that branch, which is there for a closed stdin: the frame of a closed
   stdin carries no command, so check() refuses it.
   */
  lemma ClientNeverTearsDown(chunk: string, rest: string, w: World, k: nat)
    requires Int32(|chunk|)
    ensures !TearsDown(OneTurn(StdinFrame(chunk) + rest, false, w, k))
    ensures !TearsDown(OneTurn(InterruptFrame() + rest, false, w, k))
  {
    hide OneTurn;
    TerminatorTurn(Interrupt(rest), w, k);
    if chunk == "" {
      TerminatorTurn(StdinClosed(rest), w, k);
    } else {
      ChunkTurn(chunk, rest, w, k);
    }
  }

  /** A command other than "interrupt", and no size: only such a frame takes the branch. */
  lemma TearsDownIff(text: string, w: World, k: nat)
    ensures TearsDown(OneTurn(text, false, w, k))
       <==> (var request := RequestIn(text);
             && text != "" && !w.gone(k) && (w.broken ==> Complete(text))
             && request.IsEmpty() && request.HasCommand() && !request.IsInterrupted())
  {
    hide RequestIn, AfterBlock, Taken, Complete;
  }

  /**
   The reads must be full: the handler takes what one read delivers for the whole body. Two typed
   bytes that arrive one at a time lose the second one and end the session.
   */
  lemma ShortReadLosesInput()
    ensures Handled(StdinFrame("ab"), false, World(n => 1, n => Takes, n => false, false), 0)
         == Handling("a", ByInvalidRequest)
  {
    hide OneTurn, StdinFrame, Handled;
    var w := World(n => 1, n => Takes, n => false, false);
    ChunkTurn("ab", "", w, 0);
    assert StdinFrame("ab") + "" == StdinFrame("ab") && "ab" + "" == "ab";
    LoneLineTurn(w);
    assert "ab"[..1] == "a" && "ab"[1..] == "b";
    HandledTurn(StdinFrame("ab"), false, w, 0, OneTurn(StdinFrame("ab"), false, w, 0));
    HandledTurn("b", false, w, 1, OneTurn("b", false, w, 1));
  }

  lemma LoneLineTurn(w: World)
    requires !w.broken && !w.gone(1)
    ensures OneTurn("b", false, w, 1) == Stops("", ByInvalidRequest)
  {
    LoneLine();
    hide RequestIn;
  }

  lemma LoneLine()
    ensures RequestIn("b") == StreamRequest(None, None)
  {
    assert LineOf("") == "" && LineOf("b") == "b" && AfterLine("b") == "";
    assert BlockLines("") == [];
    assert BlockLines("b") == ["b"];
    hide BlockLines, LineOf, AfterLine;
    assert KeyOf("b") == "b";
    assert forall key :: key in KeysOf(["b"]) ==> key == "b";
    assert "Size" != "b" && "Cmd" != "b" by {
      assert |"Size"| == 4 && |"Cmd"| == 3;
    }
  }

  /**
   The client's whole input on one stream: the request is read, and the handler, which takes over at
   the byte where the request ends, forwards exactly what the user typed.
   */
  lemma RequestThenStdin(cwd: string, token: string, args: seq<string>, envVars: seq<string>, classpath: Option<string>,
                         chunks: seq<string>, t: Terminator, w: World)
    requires Request.Arguments(args) && Request.Clean(cwd) && Request.Clean(token) && token != ""
    requires Request.AllClean(envVars) && Request.AllClean(Request.Listed(classpath))
    requires Typed(chunks) && AllArrive(chunks, w, 0)
    ensures var input := Request.RequestText(cwd, token, args, envVars, classpath)
                         + (StdinFrames(chunks) + TerminatorText(t));
            && Request.RequestOf(Parsed(BlockLines(input)), token)
               == Request.Received(Request.RequestSent(cwd, token, args, envVars, classpath))
            && Handled(AfterBlock(input), false, w, 0) == Handling(Concat(chunks), TerminatorEnd(t, w, |chunks|))
  {
    hide Handled, TerminatorText, StdinFrames, Parsed, BlockLines, AfterBlock, Typed, AllArrive;
    hide Request.RequestOf, Request.RequestText, Request.AllClean, Request.Clean, Request.Arguments;
    Request.RequestRoundTrip(cwd, token, args, envVars, classpath, token, StdinFrames(chunks) + TerminatorText(t));
    StdinForwarded(chunks, t, w, 0);
  }
}
