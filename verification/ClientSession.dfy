/** start_session: the C client takes the multiplexed response apart. */
module ClientSession {
  import opened Text
  import opened Sockets
  import opened Response

  const BUFFER_SIZE: nat := 512
  const MAX_HEADER_KEY_LEN: nat := 30
  const MAX_HEADER_VALUE_LEN: nat := 512
  const MAX_HEADER: nat := 10
  const CANCEL: char := 24 as char

  /** struct header_t: two byte arrays, each one byte longer than what strncpy fills. */
  datatype Record = Record(key: string, value: string)

  ghost predicate Sized(r: Record) {
    |r.key| == MAX_HEADER_KEY_LEN + 1 && |r.value| == MAX_HEADER_VALUE_LEN + 1
  }

  ghost predicate AllSized(records: seq<Record>) {
    forall i :: 0 <= i < |records| ==> Sized(records[i])
  }

  /** strncpy(dst, src, n) into an array of other bytes. */
  function StrNCopied(dst: string, src: string, n: nat): (r: string)
    requires n <= |dst|
    ensures |r| == |dst|
  {
    Padded(src, n) + dst[n..]
  }

  // ----- read_line -----

  /** How many bytes read_line takes: through the line feed, at most `size`. */
  function LineTaken(s: string, size: nat): (n: nat)
    ensures n <= |s| && n <= size
    ensures s != "" && size > 0 ==> n > 0
  {
    var i := IndexOf(s, LF);
    var n := if i < |s| then i + 1 else |s|;
    if n < size then n else size
  }

  /** read_line into a zeroed buffer; at the end of the stream the rest stays zero. */
  method ReadLine(fd: Socket, buf: array<char>, size: nat)
    requires size == buf.Length && buf[..] == Zeros(size)
    modifies fd`rest, fd`failed, buf
    ensures var n := LineTaken(old(fd.rest), size);
            buf[..] == old(fd.rest)[..n] + Zeros(size - n) && fd.rest == old(fd.rest)[n..]
  {
    ghost var s := fd.rest;
    for i := 0 to size
      invariant LF !in s[..if i < |s| then i else |s|]
      invariant fd.rest == s[if i < |s| then i else |s|..]
      invariant forall j :: 0 <= j < size ==> buf[j] == if j < i && j < |s| then s[j] else NUL
    {
      var c := fd.ReadByte();
      if c.Some? {
        buf[i] := c.value;
        assert s[..i + 1] == s[..i] + [c.value];
      }
      if buf[i] == LF {
        assert IndexOf(s, LF) == i;
        return;
      }
    }
  }

  // ----- read_header -----

  predicate IsDelimiter(c: char) {
    c == ' ' || c == ':'
  }

  function SkipDelimiters(s: string): string {
    if s != "" && IsDelimiter(s[0]) then SkipDelimiters(s[1..]) else s
  }

  function TokenEnd(s: string): (n: nat)
    ensures n <= |s|
    ensures n < |s| ==> IsDelimiter(s[n])
    ensures forall j :: 0 <= j < n ==> !IsDelimiter(s[j])
  {
    if s == "" || IsDelimiter(s[0]) then 0 else 1 + TokenEnd(s[1..])
  }

  function SkipLineFeeds(s: string): string {
    if s != "" && s[0] == LF then SkipLineFeeds(s[1..]) else s
  }

  datatype KeyCheck = Fine | Blanked | Stops(code: int)

  /** The first character of a key that is not alphanumeric decides. */
  function CheckKey(key: string): KeyCheck {
    if key == "" then Fine
    else if key[0] == CANCEL then Stops(0)
    else if IsSpace(key[0]) then Blanked
    else if !IsAlnum(key[0]) then Stops(1)
    else CheckKey(key[1..])
  }

  datatype HeaderRead = Stored(record: Record) | Exits(code: int)

  function ReadHeader(line: string, record: Record): HeaderRead
    requires Sized(record)
  {
    var t := SkipDelimiters(line);
    var key := t[..TokenEnd(t)];
    var after := if TokenEnd(t) < |t| then t[TokenEnd(t) + 1..] else "";
    if key == "" || |key| > MAX_HEADER_KEY_LEN then Exits(1)
    else
      match CheckKey(key)
      case Stops(code) => Exits(code)
      case Blanked => Stored(record)
      case Fine =>
        var token := SkipLineFeeds(after);
        var value := SkipSpaces(token[..IndexOf(token, LF)]);
        if token == "" || |value| > MAX_HEADER_VALUE_LEN then Exits(1)
        else Stored(Record(StrNCopied(record.key, key, MAX_HEADER_KEY_LEN),
                           StrNCopied(record.value, value, MAX_HEADER_VALUE_LEN)))
  }

  method CheckKeyLoop(key: string) returns (check: KeyCheck)
    ensures check == CheckKey(key)
  {
    for i := 0 to |key|
      invariant CheckKey(key) == CheckKey(key[i..])
    {
      assert key[i..][1..] == key[i + 1..];
      if key[i] == CANCEL {
        return Stops(0);
      }
      if IsSpace(key[i]) {
        return Blanked;
      }
      if !IsAlnum(key[i]) {
        return Stops(1);
      }
    }
    check := Fine;
  }

  /** read_header writes the record in place; None when it returned normally. */
  method ReadHeaderInto(line: string, headers: array<Record>, pos: nat) returns (exit: Option<int>)
    requires pos < headers.Length && Sized(headers[pos])
    modifies headers
    ensures forall i :: 0 <= i < headers.Length && i != pos ==> headers[i] == old(headers[i])
    ensures match ReadHeader(line, old(headers[pos]))
            case Exits(code) => exit == Some(code)
            case Stored(record) => exit == None && headers[pos] == record
  {
    var t := SkipDelimiters(line);
    var key := t[..TokenEnd(t)];
    if key == "" || |key| > MAX_HEADER_KEY_LEN {
      return Some(1);
    }
    var check := CheckKeyLoop(key);
    match check
    case Stops(code) => return Some(code);
    case Blanked => return None;
    case Fine =>
      headers[pos] := headers[pos].(key := StrNCopied(headers[pos].key, key, MAX_HEADER_KEY_LEN));
      var token := SkipLineFeeds(if TokenEnd(t) < |t| then t[TokenEnd(t) + 1..] else "");
      if token == "" {
        return Some(1);
      }
      var value := SkipSpaces(token[..IndexOf(token, LF)]);
      if |value| > MAX_HEADER_VALUE_LEN {
        return Some(1);
      }
      headers[pos] := headers[pos].(value := StrNCopied(headers[pos].value, value, MAX_HEADER_VALUE_LEN));
      return None;
  }

  // ----- read_headers and find_header -----

  /** Overrun: an eleventh header, for which there is no record. */
  datatype BlockRead =
    | Block(count: nat, records: seq<Record>, rest: string)
    | Exited(code: int)
    | Overrun

  /** What a line means to read_headers' loop. */
  datatype LineRead = Ends(count: nat) | Stores(record: Record) | Quits(code: int) | NoRecord

  function FirstChar(line: string): char {
    if line == "" then NUL else if line[0] == CR then (if |line| > 1 then line[1] else NUL) else line[0]
  }

  function ReadOne(line: string, records: seq<Record>, pos: nat): (r: LineRead)
    requires AllSized(records) && pos <= |records|
    ensures line == "" ==> r.Ends?
    ensures r.Ends? ==> r.count <= pos
    ensures r.Stores? ==> pos < |records| && AllSized(records[pos := r.record])
  {
    if line == "" || line[0] == NUL then Ends(0)
    else if FirstChar(line) == LF then Ends(pos)
    else if pos == |records| then NoRecord
    else
      match ReadHeader(UpToNul(line), records[pos])
      case Exits(code) => Quits(code)
      case Stored(record) => Stores(record)
  }

  function ReadBlock(s: string, records: seq<Record>, pos: nat): (r: BlockRead)
    requires AllSized(records) && pos <= |records|
    ensures r.Block? ==> |r.records| == |records| && AllSized(r.records) && r.count <= |records| && |r.rest| <= |s|
    ensures r.Block? && r.count > pos ==> |r.rest| < |s|
    decreases |s|
  {
    var n := LineTaken(s, BUFFER_SIZE);
    match ReadOne(s[..n], records, pos)
    case Ends(count) => Block(count, records, s[n..])
    case Quits(code) => Exited(code)
    case NoRecord => Overrun
    case Stores(record) => ReadBlock(s[n..], records[pos := record], pos + 1)
  }

  function FindHeader(records: seq<Record>, key: string): Option<string> {
    if records == [] then None
    else if UpToNul(records[0].key) == key then Some(UpToNul(records[0].value))
    else FindHeader(records[1..], key)
  }

  method FindHeaderLoop(headers: array<Record>, key: string, headerSize: nat) returns (value: Option<string>)
    requires headerSize <= headers.Length
    ensures value == FindHeader(headers[..headerSize], key)
  {
    for i := 0 to headerSize
      invariant FindHeader(headers[..headerSize], key) == FindHeader(headers[i..headerSize], key)
    {
      assert headers[i..headerSize][1..] == headers[i + 1..headerSize];
      if UpToNul(headers[i].key) == key {
        return Some(UpToNul(headers[i].value));
      }
    }
    value := None;
  }

  lemma LineInBuffer(line: string, size: nat)
    requires |line| <= size
    ensures UpToNul(line + Zeros(size - |line|)) == UpToNul(line)
  {
    var b := line + Zeros(size - |line|);
    var i := IndexOf(line, NUL);
    assert forall j :: 0 <= j < i ==> b[j] == line[j];
    assert i < |b| ==> b[i] == NUL;
    assert IndexOf(b, NUL) == i;
    assert b[..i] == line[..i];
  }

  /** The body of read_headers' loop. */
  method ReadOneHeader(fd: Socket, headers: array<Record>, pos: nat) returns (r: LineRead)
    requires AllSized(headers[..]) && pos <= headers.Length
    modifies fd`rest, fd`failed, headers
    ensures var n := LineTaken(old(fd.rest), BUFFER_SIZE);
            fd.rest == old(fd.rest)[n..] && r == ReadOne(old(fd.rest)[..n], old(headers[..]), pos)
    ensures r.Stores? ==> headers[..] == old(headers[..])[pos := r.record]
    ensures r.Ends? ==> headers[..] == old(headers[..])
  {
    ghost var line := fd.rest[..LineTaken(fd.rest, BUFFER_SIZE)];
    var readBuf := new char[BUFFER_SIZE](_ => NUL);
    assert readBuf[..] == Zeros(BUFFER_SIZE);
    ReadLine(fd, readBuf, BUFFER_SIZE);
    LineInBuffer(line, BUFFER_SIZE);
    hide ReadHeader, LineTaken, UpToNul;
    assert readBuf[..][0] == if line == "" then NUL else line[0];
    if readBuf[0] == NUL {
      return Ends(0);
    }
    assert readBuf[..][1] == if |line| > 1 then line[1] else NUL;
    var p := if readBuf[0] == CR then 1 else 0;
    if readBuf[p] == LF {
      return Ends(pos);
    }
    if pos == headers.Length {
      return NoRecord;
    }
    var exit := ReadHeaderInto(UpToNul(readBuf[..]), headers, pos);
    if exit.Some? {
      return Quits(exit.value);
    }
    assert headers[..] == old(headers[..])[pos := headers[pos]];
    r := Stores(headers[pos]);
  }

  method ReadHeaders(fd: Socket, headers: array<Record>) returns (r: BlockRead)
    requires AllSized(headers[..])
    modifies fd`rest, fd`failed, headers
    ensures r == ReadBlock(old(fd.rest), old(headers[..]), 0)
    ensures r.Block? ==> headers[..] == r.records && fd.rest == r.rest
  {
    hide ReadOne, LineTaken;
    var pos := 0;
    while true
      invariant pos <= headers.Length && AllSized(headers[..])
      invariant ReadBlock(old(fd.rest), old(headers[..]), 0) == ReadBlock(fd.rest, headers[..], pos)
      decreases |fd.rest|
    {
      var one := ReadOneHeader(fd, headers, pos);
      match one
      case Ends(count) => return Block(count, headers[..], fd.rest);
      case Quits(code) => return Exited(code);
      case NoRecord => return Overrun;
      case Stores(_) => pos := pos + 1;
    }
  }

  // ----- receive_from_server and start_session -----

  class Console {
    var out: string
    var err: string

    constructor ()
      ensures out == "" && err == ""
    {
      out, err := "", "";
    }
  }

  /** How many bytes of the body are there to copy. */
  function BodyLength(size: int, available: nat): (n: nat)
    ensures n <= available
  {
    if size <= 0 then 0 else if size < available then size else available
  }

  /** The copying loop: whatever recv delivers at a time, all of the body goes to one stream. */
  method ReceiveFromServer(socket: Socket, channel: Channel, size: int, console: Console)
    modifies socket, console
    ensures var n := BodyLength(size, |old(socket.rest)|);
            && socket.rest == old(socket.rest)[n..]
            && console.out == old(console.out) + (if channel.Out? then old(socket.rest)[..n] else "")
            && console.err == old(console.err) + (if channel.Err? then old(socket.rest)[..n] else "")
  {
    var remainedSize := size;
    ghost var s, copied := socket.rest, 0;
    while true
      invariant 0 <= copied <= BodyLength(size, |s|)
      invariant remainedSize == size - copied
      invariant socket.rest == s[copied..]
      invariant console.out == old(console.out) + (if channel.Out? then s[..copied] else "")
      invariant console.err == old(console.err) + (if channel.Err? then s[..copied] else "")
      decreases |s| - copied
    {
      var want := if remainedSize < BUFFER_SIZE then remainedSize else BUFFER_SIZE;
      if want <= 0 {
        break;
      }
      var chunk := socket.Read(want);
      if chunk == "" {
        break;
      }
      assert s[..copied + |chunk|] == s[..copied] + chunk;
      if channel.Out? {
        console.out := console.out + chunk;
      } else {
        console.err := console.err + chunk;
      }
      remainedSize := remainedSize - |chunk|;
      copied := copied + |chunk|;
    }
  }

  datatype End = Returned(status: int) | ProcessExit(code: int) | RecordOverrun

  /** What a session writes, how it ends, and what it leaves unread. */
  datatype Session = Session(out: string, err: string, end: End, rest: string)

  function ChannelOf(name: string): Option<Channel> {
    if name == "out" then Some(Out) else if name == "err" then Some(Err) else None
  }

  /** What start_session makes of a header block. */
  datatype Dispatch = Finish(end: End) | Copy(channel: Channel, size: int)

  function Dispatched(records: seq<Record>): Dispatch {
    if records == [] then Finish(Returned(0))
    else if FindHeader(records, "Status").Some? then Finish(Returned(Atoi(FindHeader(records, "Status").value)))
    else if FindHeader(records, "Channel").None? then Finish(Returned(1))
    else if FindHeader(records, "Size").None? then Finish(Returned(1))
    else
      match ChannelOf(FindHeader(records, "Channel").value)
      case None => Finish(ProcessExit(1))
      case Some(channel) => Copy(channel, Atoi(FindHeader(records, "Size").value))
  }

  function Demultiplexed(s: string, records: seq<Record>): Session
    requires AllSized(records)
    decreases |s|
  {
    match ReadBlock(s, records, 0)
    case Exited(code) => Session("", "", ProcessExit(code), s)
    case Overrun => Session("", "", RecordOverrun, s)
    case Block(count, next, rest) =>
      match Dispatched(next[..count])
      case Finish(end) => Session("", "", end, rest)
      case Copy(channel, size) =>
        var n := BodyLength(size, |rest|);
        var later := Demultiplexed(rest[n..], next);
        Session((if channel.Out? then rest[..n] else "") + later.out,
                (if channel.Err? then rest[..n] else "") + later.err, later.end, later.rest)
  }

  /** `out` and `err` have been written, and the rest of the session starts at `rest`. */
  ghost predicate Going(whole: Session, out: string, err: string, rest: string, records: seq<Record>) {
    AllSized(records) &&
    var later := Demultiplexed(rest, records);
    whole == Session(out + later.out, err + later.err, later.end, later.rest)
  }

  ghost predicate Ended(whole: Session, out: string, err: string, end: End, rest: string) {
    whole.out == out && whole.err == err && whole.end == end && (end.Returned? ==> whole.rest == rest)
  }

  lemma GoingStarts(s: string, records: seq<Record>)
    requires AllSized(records)
    ensures Going(Demultiplexed(s, records), "", "", s, records)
  {
    hide Demultiplexed;
    var d := Demultiplexed(s, records);
    assert "" + d.out == d.out && "" + d.err == d.err;
  }

  lemma GoingStops(whole: Session, out: string, err: string, rest: string, records: seq<Record>)
    requires Going(whole, out, err, rest, records)
    ensures match ReadBlock(rest, records, 0)
            case Exited(code) => Ended(whole, out, err, ProcessExit(code), "")
            case Overrun => Ended(whole, out, err, RecordOverrun, "")
            case Block(count, next, after) =>
              Dispatched(next[..count]).Finish? ==> Ended(whole, out, err, Dispatched(next[..count]).end, after)
  {
    assert out + "" == out && err + "" == err;
    hide ReadBlock, Dispatched;
  }

  lemma GoingOn(whole: Session, out: string, err: string, rest: string, records: seq<Record>)
    requires Going(whole, out, err, rest, records)
    ensures match ReadBlock(rest, records, 0)
            case Exited(code) => true
            case Overrun => true
            case Block(count, next, after) =>
              match Dispatched(next[..count])
              case Finish(_) => true
              case Copy(channel, size) =>
                var n := BodyLength(size, |after|);
                Going(whole, out + (if channel.Out? then after[..n] else ""),
                      err + (if channel.Err? then after[..n] else ""), after[n..], next)
  {
    hide ReadBlock, Dispatched, BodyLength;
    match ReadBlock(rest, records, 0)
    case Exited(_) =>
    case Overrun =>
    case Block(count, next, after) =>
      match Dispatched(next[..count])
      case Finish(_) =>
      case Copy(channel, size) =>
        var n := BodyLength(size, |after|);
        var later := Demultiplexed(after[n..], next);
        Assoc(out, if channel.Out? then after[..n] else "", later.out);
        Assoc(err, if channel.Err? then after[..n] else "", later.err);
  }

  /** The three find_header calls of start_session. */
  method DispatchHeaders(headers: array<Record>, size: nat) returns (d: Dispatch)
    requires size <= headers.Length
    ensures d == Dispatched(headers[..size])
  {
    if size == 0 {
      return Finish(Returned(0));
    }
    var status := FindHeaderLoop(headers, "Status", size);
    if status.Some? {
      return Finish(Returned(Atoi(status.value)));
    }
    var sid := FindHeaderLoop(headers, "Channel", size);
    if sid.None? {
      return Finish(Returned(1));
    }
    var chunkSize := FindHeaderLoop(headers, "Size", size);
    if chunkSize.None? {
      return Finish(Returned(1));
    }
    var channel := ChannelOf(sid.value);
    if channel.None? {
      return Finish(ProcessExit(1));
    }
    d := Copy(channel.value, Atoi(chunkSize.value));
  }

  /** start_session; `garbage` is what the uninitialised header records happen to hold. */
  method StartSession(fd: Socket, console: Console, garbage: seq<Record>) returns (end: End)
    requires AllSized(garbage) && |garbage| == MAX_HEADER
    modifies fd, console
    ensures var whole := Demultiplexed(old(fd.rest), garbage);
            && end == whole.end
            && console.out == old(console.out) + whole.out && console.err == old(console.err) + whole.err
            && (end.Returned? ==> fd.rest == whole.rest)
  {
    var headers := new Record[MAX_HEADER](i requires 0 <= i < MAX_HEADER => garbage[i]);
    assert headers[..] == garbage;
    ghost var whole, out, err := Demultiplexed(fd.rest, garbage), "", "";
    GoingStarts(fd.rest, garbage);
    assert console.out + "" == console.out && console.err + "" == console.err;
    hide *;
    while true
      invariant headers.Length == MAX_HEADER
      invariant Going(whole, out, err, fd.rest, headers[..])
      invariant console.out == old(console.out) + out && console.err == old(console.err) + err
      decreases |fd.rest|
    {
      GoingSized(whole, out, err, fd.rest, headers[..]);
      GoingStops(whole, out, err, fd.rest, headers[..]);
      GoingOn(whole, out, err, fd.rest, headers[..]);
      ghost var s := fd.rest;
      var block := ReadHeaders(fd, headers);
      match block
      case Exited(code) =>
        EndedIs(whole, out, err, ProcessExit(code), "");
        return ProcessExit(code);
      case Overrun =>
        EndedIs(whole, out, err, RecordOverrun, "");
        return RecordOverrun;
      case Block(size, _, _) =>
        var d := DispatchHeaders(headers, size);
        match d {
          case Finish(result) =>
            EndedIs(whole, out, err, result, fd.rest);
            return result;
          case Copy(channel, bytes) =>
            CopyNeedsHeaders(headers[..size]);
            ghost var n := BodyLength(bytes, |fd.rest|);
            ghost var body := fd.rest[..n];
            Assoc(old(console.out), out, if channel.Out? then body else "");
            Assoc(old(console.err), err, if channel.Err? then body else "");
            ReceiveFromServer(fd, channel, bytes, console);
            out := out + (if channel.Out? then body else "");
            err := err + (if channel.Err? then body else "");
        }
    }
  }

  lemma GoingSized(whole: Session, out: string, err: string, rest: string, records: seq<Record>)
    requires Going(whole, out, err, rest, records)
    ensures AllSized(records)
  {
  }

  lemma EndedIs(whole: Session, out: string, err: string, end: End, rest: string)
    requires Ended(whole, out, err, end, rest)
    ensures whole.out == out && whole.err == err && whole.end == end && (end.Returned? ==> whole.rest == rest)
  {
  }

  lemma CopyNeedsHeaders(records: seq<Record>)
    ensures Dispatched(records).Copy? ==> records != []
  {
  }
}
