/** GroovyClient: the second demultiplexer, which digests whatever text is available at a time. */
module GroovyClients {
  import opened Text
  import opened Sockets
  import opened Headers
  import opened Response
  import opened ResponseRoundTrip
  import opened ClientSession
  import Request

  // ----- the request -----

  /** A header that run() puts into its map only when there are values for it. */
  function Unless(values: seq<string>, key: string): seq<Entry> {
    if values == [] then [] else [Entry(key, values)]
  }

  lemma UnlessLines(values: seq<string>, key: string)
    ensures FormatLines(Unless(values, key)) == FormatLines([Entry(key, values)])
  {
    assert [Entry(key, values)][1..] == [];
    assert values == [] ==> EntryLines(key, values) == [];
  }

  lemma SameLines(head: seq<Entry>, args: seq<string>, environments: seq<string>)
    ensures FormatLines(head + Unless(args, "Arg") + Unless(environments, "Env"))
         == FormatLines(head + [Entry("Arg", args)] + [Entry("Env", environments)] + [Entry("Cp", [])])
  {
    var cp: seq<string> := [];
    var a, e, c := [Entry("Arg", args)], [Entry("Env", environments)], [Entry("Cp", cp)];
    UnlessLines(args, "Arg");
    UnlessLines(environments, "Env");
    UnlessLines(cp, "Cp");
    assert FormatLines(c) == [];
    hide FormatLines, Unless;
    FormatLinesAppend(head + Unless(args, "Arg"), Unless(environments, "Env"));
    FormatLinesAppend(head, Unless(args, "Arg"));
    FormatLinesAppend(head + a + e, c);
    FormatLinesAppend(head + a, e);
    FormatLinesAppend(head, a);
  }

  /** GroovyClient.run writes the same bytes as the C client started in /tmp without a classpath. */
  method RunRequest(authtoken: string, args: seq<string>, environments: seq<string>) returns (sent: string)
    requires Request.Arguments(args)
    ensures sent == Request.RequestText("/tmp", authtoken, args, environments, None)
  {
    hide FormatLines, Request.EncodedArgs;
    var headers := [Entry("Cwd", ["/tmp"]), Entry("Auth", [authtoken])];
    ghost var head := headers;
    ghost var encoded := Request.EncodedArgs(args);
    SameLines(headers, encoded, environments);
    assert headers + [Entry("Arg", encoded)] + [Entry("Env", environments)] + [Entry("Cp", [])]
        == Request.RequestEntries("/tmp", authtoken, args, environments, None);
    if args != [] {
      headers := headers + [Entry("Arg", Request.EncodedArgs(args))];
    }
    if environments != [] {
      headers := headers + [Entry("Env", environments)];
    }
    assert headers == head + Unless(encoded, "Arg") + Unless(environments, "Env");
    sent := FormatAsHeader(headers, "");
  }

  // ----- the response -----

  /** What the client has received so far. */
  datatype Received = Received(outBytes: string, errBytes: string, exitStatus: Option<int>)

  datatype Digested = Done(received: Received) | Raised

  /** ClientProtocols.readBody on a byte array stream: None where its assertion or the allocation fails. */
  function Body(rest: string, size: int): Option<string> {
    if 0 <= size <= |rest| && rest != "" then Some(rest[..size]) else None
  }

  function Appended(c: Received, channel: Channel, bytes: string): Received {
    if channel.Out? then c.(outBytes := c.outBytes + bytes) else c.(errBytes := c.errBytes + bytes)
  }

  /** `headers.Size?.getAt(0) as int` and the like: None where the conversion fails. */
  function AsInt(value: Option<string>): Option<int> {
    if value.None? then None else ParseInteger(value.value)
  }

  /** What one header block asks for. */
  datatype Effect = TakesBody(channel: Channel, size: int) | SetsStatus(status: int) | Nothing | Fails

  function EffectOf(headers: HeaderMap): Effect {
    var channel := First(headers, "Channel");
    if channel.Some? && ChannelOf(channel.value).Some? then
      match AsInt(First(headers, "Size"))
      case Some(size) => TakesBody(ChannelOf(channel.value).value, size)
      case None => Fails
    else if First(headers, "Status").Some? then
      match AsInt(First(headers, "Status"))
      case Some(status) => SetsStatus(status)
      case None => Fails
    else Nothing
  }

  /** The loop of readAllAsPossible over the available text. */
  function Digest(text: string, c: Received): Digested
    decreases |text|
  {
    var headers, rest := Parsed(BlockLines(text)), AfterBlock(text);
    if headers == map[] || text == "" then Done(c)
    else
      match EffectOf(headers)
      case Fails => Raised
      case Nothing => Digest(rest, c)
      case SetsStatus(status) => Digest(rest, c.(exitStatus := Some(status)))
      case TakesBody(channel, size) =>
        match Body(rest, size)
        case None => Raised
        case Some(bytes) => Digest(rest[|bytes|..], Appended(c, channel, bytes))
  }

  lemma NoTextNoHeaders(text: string)
    ensures text == "" ==> Parsed(BlockLines(text)) == map[]
  {
    if text == "" {
      assert LineOf(text) == "";
      ParsedNone();
    }
  }

  class GroovyClient {
    var outBytes: string
    var errBytes: string
    var exitStatus: Option<int>
    var connected: bool

    constructor ()
      ensures Abs() == Received("", "", None) && connected
    {
      outBytes, errBytes, exitStatus, connected := "", "", None, true;
    }

    ghost function Abs(): Received
      reads this
    {
      Received(outBytes, errBytes, exitStatus)
    }

    /** readAllAsPossible; false where it throws. `availableText` is what the socket has ready. */
    method ReadAllAsPossible(availableText: string) returns (ok: bool)
      modifies this
      ensures !old(connected) ==> !ok && Abs() == old(Abs())
      ensures old(connected) ==>
                match Digest(availableText, old(Abs()))
                case Raised => !ok
                case Done(received) =>
                  && ok && Abs() == received
                  && (connected <==> availableText == "" || exitStatus == None || exitStatus == Some(0))
    {
      if !connected {
        return false;
      }
      if availableText == "" {
        NoTextNoHeaders(availableText);
        return true;
      }
      ok := DigestText(availableText);
      if ok && exitStatus.Some? && exitStatus.value != 0 {
        connected := false;
      }
    }

    method DigestText(availableText: string) returns (ok: bool)
      modifies this
      ensures connected == old(connected)
      ensures match Digest(availableText, old(Abs()))
              case Raised => !ok
              case Done(received) => ok && Abs() == received
    {
      var ins := new Socket(availableText, n => n, false);
      hide EffectOf, Parsed, BlockLines, AfterBlock;
      while true
        invariant fresh(ins) && !ins.broken && connected == old(connected)
        invariant Digest(availableText, old(Abs())) == Digest(ins.rest, Abs())
        decreases |ins.rest|
      {
        ghost var text := ins.rest;
        NoTextNoHeaders(text);
        var parsed := ParseHeaders(ins);
        var headers := parsed.value;
        if headers == map[] {
          return true;
        }
        var effect := EffectOf(headers);
        match effect {
          case Fails => return false;
          case Nothing =>
          case SetsStatus(status) => exitStatus := Some(status);
          case TakesBody(channel, size) =>
            var body := Body(ins.rest, size);
            if body.None? {
              return false;
            }
            ins.rest := ins.rest[|body.value|..];
            if channel.Out? {
              outBytes := outBytes + body.value;
            } else {
              errBytes := errBytes + body.value;
            }
        }
      }
    }

    /** waitForExit over what becomes available, batch by batch; false where it throws. */
    method WaitForExit(batches: seq<string>) returns (ok: bool)
      requires connected
      modifies this
      ensures match DigestAll(batches, old(Abs()))
              case Raised => !ok
              case Done(received) => ok && Abs() == received
    {
      var i := 0;
      assert batches[0..] == batches;
      hide Digest;
      while i < |batches| && exitStatus == None
        invariant i <= |batches| && (exitStatus == None ==> connected)
        invariant DigestAll(batches, old(Abs())) == DigestAll(batches[i..], Abs())
        decreases |batches| - i
      {
        assert batches[i..][1..] == batches[i + 1..];
        ok := ReadAllAsPossible(batches[i]);
        if !ok {
          return;
        }
        i := i + 1;
      }
      ok := true;
    }
  }

  function DigestAll(batches: seq<string>, c: Received): Digested {
    if batches == [] || c.exitStatus.Some? then Done(c)
    else
      match Digest(batches[0], c)
      case Raised => Raised
      case Done(next) => DigestAll(batches[1..], next)
  }

  /** What becomes available behind the status is left alone. */
  lemma StatusStopsReading(batches: seq<string>, more: seq<string>, c: Received)
    requires DigestAll(batches, c).Done? && DigestAll(batches, c).received.exitStatus.Some?
    ensures DigestAll(batches + more, c) == DigestAll(batches, c)
    decreases |batches|
  {
    hide Digest;
    if batches != [] && c.exitStatus.None? {
      assert (batches + more)[1..] == batches[1..] + more;
      StatusStopsReading(batches[1..], more, Digest(batches[0], c).received);
    }
  }

  // ----- digesting frames -----

  lemma HeaderParsed(channel: Channel, size: int, t: string)
    requires Int32(size)
    ensures var text := Formatted(ResponseEntries(channel, size), t);
            && AfterBlock(text) == t && Parsed(BlockLines(text)) != map[] && text != ""
            && EffectOf(Parsed(BlockLines(text))) == TakesBody(channel, size)
  {
    var fields := FrameFields(channel, size);
    var text := Formatted(ResponseEntries(channel, size), t);
    HeaderIsBlock(channel, size, t);
    FieldsFit(channel, size);
    FieldLinesAreLines(fields);
    BlockRoundTrip(FieldLines(fields), t);
    ParsedFieldValue(fields, "Channel");
    ParsedFieldValue(fields, "Size");
    TwoFieldValues(Field("Channel", StreamId(channel)), Field("Size", Decimal(size)), "Channel");
    TwoFieldValues(Field("Channel", StreamId(channel)), Field("Size", Decimal(size)), "Size");
    DecimalRoundTrip(size);
    hide Parsed, BlockLines, AfterBlock, Formatted, FieldValue, Decimal, ParseInteger, FieldLines, Terminated;
    assert ChannelOf(StreamId(channel)) == Some(channel);
  }

  lemma ExitParsed(status: int)
    requires Int32(status)
    ensures var text := ExitFrame(status);
            && AfterBlock(text) == "" && Parsed(BlockLines(text)) != map[] && text != ""
            && EffectOf(Parsed(BlockLines(text))) == SetsStatus(status)
  {
    var fields := ExitFields(status);
    ExitIsBlock(status);
    FieldsFit(Out, status);
    FieldLinesAreLines(fields);
    BlockRoundTrip(FieldLines(fields), "");
    assert Terminated(FieldLines(fields)) + [LF] + "" == ExitFrame(status);
    ParsedFieldValue(fields, "Channel");
    ParsedFieldValue(fields, "Status");
    OneFieldValue(Field("Status", Decimal(status)), "Channel");
    OneFieldValue(Field("Status", Decimal(status)), "Status");
    DecimalRoundTrip(status);
    hide Parsed, BlockLines, AfterBlock, ExitFrame, FieldValue, Decimal, ParseInteger, FieldLines, Terminated;
  }

  lemma OneFieldValue(a: Field, key: string)
    ensures FieldValue([a], key) == if a.key == key then Some(a.value) else None
  {
    assert [a][1..] == [];
  }

  /** A frame is digested unless its body is empty and it is the last thing in the text. */
  lemma FrameDigested(w: Output, rest: string, c: Received)
    requires Int32(|w.body|)
    ensures w.body + rest != "" ==> Digest(Frame(w) + rest, c) == Digest(rest, Appended(c, w.channel, w.body))
    ensures w.body + rest == "" ==> Digest(Frame(w) + rest, c) == Raised
  {
    var t := w.body + rest;
    assert Frame(w) + rest == Formatted(ResponseEntries(w.channel, |w.body|), t);
    HeaderParsed(w.channel, |w.body|, t);
    hide Parsed, BlockLines, AfterBlock, Formatted, EffectOf, Frame;
    assert t != "" ==> t[..|w.body|] == w.body && t[|w.body|..] == rest;
  }

  lemma ExitDigested(status: int, c: Received)
    requires Int32(status)
    ensures Digest(ExitFrame(status), c) == Done(c.(exitStatus := Some(status)))
  {
    ExitParsed(status);
    hide Parsed, BlockLines, AfterBlock, EffectOf, ExitFrame;
    assert Digest("", c.(exitStatus := Some(status))) == Done(c.(exitStatus := Some(status)));
  }

  /** A status frame with a message behind it, as for a wrong token: the message is a block without a meaning. */
  lemma MessageIgnored(status: int, message: string, c: Received)
    requires Int32(status) && LF !in message && message != "" && ':' !in message
    requires message != "Channel" && message != "Status"
    ensures Digest(Formatted(ExitEntries(status), message), c) == Done(c.(exitStatus := Some(status)))
  {
    var text := Formatted(ExitEntries(status), message);
    StatusBlockParsed(status, message);
    LoneBlock(message);
    var after := c.(exitStatus := Some(status));
    hide Parsed, BlockLines, AfterBlock, ExitEntries, Formatted;
    assert Digest("", after) == Done(after);
    assert Digest(message, after) == Done(after);
  }

  lemma StatusBlockParsed(status: int, t: string)
    requires Int32(status)
    ensures var text := Formatted(ExitEntries(status), t);
            && AfterBlock(text) == t && Parsed(BlockLines(text)) != map[] && text != ""
            && EffectOf(Parsed(BlockLines(text))) == SetsStatus(status)
  {
    var fields := ExitFields(status);
    OneField("Status", Decimal(status));
    FieldsFit(Out, status);
    FieldLinesAreLines(fields);
    BlockRoundTrip(FieldLines(fields), t);
    ParsedFieldValue(fields, "Channel");
    ParsedFieldValue(fields, "Status");
    OneFieldValue(Field("Status", Decimal(status)), "Channel");
    OneFieldValue(Field("Status", Decimal(status)), "Status");
    DecimalRoundTrip(status);
    hide Parsed, BlockLines, AfterBlock, FieldValue, Decimal, ParseInteger, FieldLines, Terminated;
  }

  /** One line with no ':' at the end of a text: a block that asks for nothing. */
  lemma LoneBlock(line: string)
    requires LF !in line && line != "" && ':' !in line && line != "Channel" && line != "Status"
    ensures AfterBlock(line) == "" && Parsed(BlockLines(line)) != map[]
    ensures EffectOf(Parsed(BlockLines(line))) == Nothing
  {
    assert IndexOf(line, LF) == |line| && LineOf(line) == line && AfterLine(line) == "" && LineOf("") == "";
    assert BlockLines("") == [] && BlockLines(line) == [line];
    LoneKeyParses(line);
    hide BlockLines, KeyOf, ValueOf;
    assert [line][0] == line && line in Parsed([line]);
    assert forall key :: key in KeysOf([line]) ==> key == line;
    assert "Channel" !in Parsed([line]) && "Status" !in Parsed([line]);
  }

  /**
   What the Groovy client makes of any block within the C client's limits: a channel of the two needs a size, else a
   status counts, and other blocks are passed over.
   */
  lemma BlockEffect(fields: seq<Field>, t: string)
    requires AllFit(fields)
    ensures var effect := EffectOf(Parsed(BlockLines(Terminated(FieldLines(fields)) + [LF] + t)));
            var status, channel := FieldValue(fields, "Status"), FieldValue(fields, "Channel");
            var size := FieldValue(fields, "Size");
            if channel == Some("out") || channel == Some("err") then
              if size.Some? && ParseInteger(size.value).Some? then
                effect == TakesBody(if channel == Some("out") then Out else Err, ParseInteger(size.value).value)
              else effect == Fails
            else if status.Some? then
              if ParseInteger(status.value).Some? then effect == SetsStatus(ParseInteger(status.value).value)
              else effect == Fails
            else effect == Nothing
  {
    hide Parsed, BlockLines, AfterBlock, FieldValue, ParseInteger, FieldLines, Terminated, First, AllFit;
    FieldLinesAreLines(fields);
    BlockRoundTrip(FieldLines(fields), t);
    ParsedFieldValue(fields, "Channel");
    ParsedFieldValue(fields, "Size");
    ParsedFieldValue(fields, "Status");
    assert "out" != "err" by {
      assert "out"[0] != "err"[0];
    }
  }

  /** A body that has not arrived in full makes the client throw. */
  lemma TruncatedBatchRaises(channel: Channel, size: int, part: string, c: Received)
    requires Int32(size) && (size < 0 || |part| < size)
    ensures Digest(Formatted(ResponseEntries(channel, size), part), c) == Raised
  {
    HeaderParsed(channel, size, part);
    hide Parsed, BlockLines, AfterBlock, Formatted, EffectOf;
  }

  function AllAppended(c: Received, writes: seq<Output>): (r: Received)
    ensures r.exitStatus == c.exitStatus
  {
    Received(c.outBytes + Bodies(writes, Out), c.errBytes + Bodies(writes, Err), c.exitStatus)
  }

  lemma AllAppendedNone(c: Received)
    ensures AllAppended(c, []) == c
  {
    assert c.outBytes + "" == c.outBytes && c.errBytes + "" == c.errBytes;
  }

  lemma AppendedThenAll(c: Received, writes: seq<Output>)
    requires writes != []
    ensures AllAppended(Appended(c, writes[0].channel, writes[0].body), writes[1..]) == AllAppended(c, writes)
  {
    var w := writes[0];
    Assoc(c.outBytes, if w.channel.Out? then w.body else "", Bodies(writes[1..], Out));
    Assoc(c.errBytes, if w.channel.Err? then w.body else "", Bodies(writes[1..], Err));
    assert c.outBytes + "" == c.outBytes && c.errBytes + "" == c.errBytes;
  }

  ghost predicate EndsEmpty(writes: seq<Output>) {
    writes != [] && writes[|writes| - 1].body == ""
  }

  lemma {:induction false} FramesDigested(writes: seq<Output>, after: string, c: Received)
    requires AllInt32(writes)
    ensures !EndsEmpty(writes) || after != "" ==>
              Digest(Frames(writes) + after, c) == Digest(after, AllAppended(c, writes))
    ensures EndsEmpty(writes) && after == "" ==> Digest(Frames(writes) + after, c) == Raised
  {
    hide Digest, Frame, Appended, AllAppended;
    if writes == [] {
      assert Frames(writes) + after == after;
      AllAppendedNone(c);
    } else {
      var w, rest := writes[0], Frames(writes[1..]) + after;
      assert Frames(writes) == Frame(w) + Frames(writes[1..]);
      hide Frames, Int32;
      assert AllInt32(writes[1..]);
      FrameDigested(w, rest, c);
      FramesDigested(writes[1..], after, Appended(c, w.channel, w.body));
      AppendedThenAll(c, writes);
      Assoc(Frame(w), Frames(writes[1..]), after);
      if rest == "" {
        NoFramesNoText(writes[1..]);
        assert writes == [w];
      }
    }
  }

  lemma NoFramesNoText(writes: seq<Output>)
    ensures Frames(writes) == "" ==> writes == []
  {
    if writes != [] {
      assert |Frame(writes[0])| > 0;
    }
  }

  /**
   The client throws on a batch of complete frames exactly when the last of them is empty: the byte
   array stream answers -1, not 0, to a read at its end.
   */
  lemma BatchFailsIff(writes: seq<Output>, c: Received)
    requires AllInt32(writes)
    ensures Digest(Frames(writes), c) == Raised <==> EndsEmpty(writes)
    ensures !EndsEmpty(writes) ==> Digest(Frames(writes), c) == Done(AllAppended(c, writes))
  {
    FramesDigested(writes, "", c);
    assert Frames(writes) + "" == Frames(writes);
    assert Digest("", AllAppended(c, writes)) == Done(AllAppended(c, writes)) by {
      hide AllAppended;
    }
  }

  function Flattened(groups: seq<seq<Output>>): seq<Output> {
    if groups == [] then [] else groups[0] + Flattened(groups[1..])
  }

  /** The texts that become available: whole frames, the exit status last. */
  function Batches(groups: seq<seq<Output>>, status: int): seq<string> {
    if groups == [] then [ExitFrame(status)]
    else if |groups| == 1 then [Frames(groups[0]) + ExitFrame(status)]
    else [Frames(groups[0])] + Batches(groups[1..], status)
  }

  ghost predicate NoneEndsEmpty(groups: seq<seq<Output>>) {
    forall i :: 0 <= i < |groups| - 1 ==> !EndsEmpty(groups[i])
  }

  lemma AllAppendedTwice(c: Received, a: seq<Output>, b: seq<Output>)
    ensures AllAppended(AllAppended(c, a), b) == AllAppended(c, a + b)
  {
    BodiesAppend(a, b, Out);
    BodiesAppend(a, b, Err);
    Assoc(c.outBytes, Bodies(a, Out), Bodies(b, Out));
    Assoc(c.errBytes, Bodies(a, Err), Bodies(b, Err));
  }

  lemma LastBatchDigested(writes: seq<Output>, status: int, c: Received)
    requires AllInt32(writes) && Int32(status)
    ensures Digest(Frames(writes) + ExitFrame(status), c)
         == Done(AllAppended(c, writes).(exitStatus := Some(status)))
  {
    FramesDigested(writes, ExitFrame(status), c);
    ExitParsed(status);
    ExitDigested(status, AllAppended(c, writes));
  }

  lemma {:induction false} BatchesDigested(groups: seq<seq<Output>>, status: int, c: Received)
    requires Int32(status) && c.exitStatus == None && AllInt32(Flattened(groups)) && NoneEndsEmpty(groups)
    ensures DigestAll(Batches(groups, status), c)
         == Done(AllAppended(c, Flattened(groups)).(exitStatus := Some(status)))
  {
    hide Digest, AllAppended, ExitFrame, Frames;
    var batches := Batches(groups, status);
    if groups == [] {
      ExitDigested(status, c);
      AllAppendedNone(c);
      assert batches[1..] == [];
    } else {
      var g, later := groups[0], groups[1..];
      assert AllInt32(g) && AllInt32(Flattened(later)) by {
        assert forall i :: 0 <= i < |g| ==> Flattened(groups)[i] == g[i];
        assert forall i :: 0 <= i < |Flattened(later)| ==> Flattened(groups)[|g| + i] == Flattened(later)[i];
      }
      if |groups| == 1 {
        LastBatchDigested(g, status, c);
        assert Flattened(groups) == g && batches[1..] == [];
      } else {
        BatchFailsIff(g, c);
        BatchesDigested(later, status, AllAppended(c, g));
        AllAppendedTwice(c, g, Flattened(later));
        assert batches[1..] == Batches(later, status);
      }
    }
  }

  /** The client throws in a session exactly when some batch before the last ends with an empty frame. */
  lemma {:induction false} SessionFailsIff(groups: seq<seq<Output>>, status: int, c: Received)
    requires Int32(status) && c.exitStatus == None && AllInt32(Flattened(groups))
    ensures DigestAll(Batches(groups, status), c) == Raised <==> !NoneEndsEmpty(groups)
    decreases |groups|
  {
    hide Digest, AllAppended, ExitFrame, Frames, EndsEmpty;
    if NoneEndsEmpty(groups) {
      BatchesDigested(groups, status, c);
    } else {
      var g, later := groups[0], groups[1..];
      assert AllInt32(g) && AllInt32(Flattened(later)) by {
        assert forall i :: 0 <= i < |g| ==> Flattened(groups)[i] == g[i];
        assert forall i :: 0 <= i < |Flattened(later)| ==> Flattened(groups)[|g| + i] == Flattened(later)[i];
      }
      BatchFailsIff(g, c);
      assert Batches(groups, status)[1..] == Batches(later, status);
      if !EndsEmpty(g) {
        assert forall i :: 0 <= i < |later| ==> later[i] == groups[i + 1];
        SessionFailsIff(later, status, AllAppended(c, g));
      }
    }
  }

  /**
   The two clients agree: however a response is split into batches of whole frames, provided no batch but
   the last ends with an empty frame, the Groovy client ends with the bytes and the status of the C client.
   */
  lemma TwoClientsAgree(groups: seq<seq<Output>>, status: int, records: seq<Record>)
    requires Int32(status) && AllInt32(Flattened(groups)) && NoneEndsEmpty(groups)
    requires AllSized(records) && |records| == MAX_HEADER
    ensures var session := Demultiplexed(Frames(Flattened(groups)) + ExitFrame(status) + "", records);
            && session.end.Returned?
            && DigestAll(Batches(groups, status), Received("", "", None))
               == Done(Received(session.out, session.err, Some(session.end.status)))
  {
    hide Demultiplexed, DigestAll, Frames, ExitFrame, Bodies, Flattened, Batches;
    hide NoneEndsEmpty, AllInt32, AllSized, Int32;
    ResponseDemultiplexed(Flattened(groups), status, "", records);
    BatchesDigested(groups, status, Received("", "", None));
    var writes := Flattened(groups);
    assert "" + Bodies(writes, Out) == Bodies(writes, Out) && "" + Bodies(writes, Err) == Bodies(writes, Err);
  }
}
