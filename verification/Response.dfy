/** The server's side of the response: every write becomes one frame on the shared socket stream. */
module Response {
  import opened Text
  import opened Headers

  datatype Channel = Out | Err

  function StreamId(c: Channel): string {
    if c.Out? then "out" else "err"
  }

  /** What a script does to its standard streams. */
  datatype Output = Output(channel: Channel, body: string)

  function ResponseEntries(channel: Channel, size: int): seq<Entry> {
    [Entry("Channel", [StreamId(channel)]), Entry("Size", [Decimal(size)])]
  }

  function ExitEntries(status: int): seq<Entry> {
    [Entry("Status", [Decimal(status)])]
  }

  function Frame(w: Output): string {
    Formatted(ResponseEntries(w.channel, |w.body|), w.body)
  }

  function Frames(writes: seq<Output>): string {
    if writes == [] then "" else Frame(writes[0]) + Frames(writes[1..])
  }

  function ExitFrame(status: int): string {
    Formatted(ExitEntries(status), "")
  }

  /** The bytes written to one channel, in order. */
  function Bodies(writes: seq<Output>, channel: Channel): string {
    if writes == [] then ""
    else (if writes[0].channel == channel then writes[0].body else "") + Bodies(writes[1..], channel)
  }

  /** A frame on the wire, letter by letter. */
  lemma FrameText(w: Output)
    ensures Frame(w)
         == "Channel: " + (if w.channel.Out? then "out" else "err") + "\nSize: " + Decimal(|w.body|) + "\n\n" + w.body
  {
    hide Decimal;
    var a, b := Entry("Channel", [StreamId(w.channel)]), Entry("Size", [Decimal(|w.body|)]);
    var k, l := "Channel: " + StreamId(w.channel), "Size: " + Decimal(|w.body|);
    assert [a, b][1..] == [b] && [b][1..] == [];
    assert HeaderLine("Channel", a.values[0]) == k && HeaderLine("Size", b.values[0]) == l;
    assert EntryLines("Channel", a.values) == [k] && EntryLines("Size", b.values) == [l];
    assert FormatLines([b]) == [l] + FormatLines([]);
    assert FormatLines([a, b]) == [k] + FormatLines([b]);
    assert [k, l][1..] == [l] && [l][1..] == [];
    hide EntryLines, FormatLines;
    assert Terminated([l]) == l + [LF] + Terminated([]);
    assert Terminated([k, l]) == k + [LF] + Terminated([l]);
    assert FormatLines([a, b]) == [k, l];
    assert Frame(w) == k + [LF] + (l + [LF]) + [LF] + w.body;
  }

  /** The status frame on the wire, with a message or none behind it. */
  lemma ExitText(status: int, message: string)
    ensures Formatted(ExitEntries(status), message) == "Status: " + Decimal(status) + "\n\n" + message
  {
    hide Decimal;
    var a, k := Entry("Status", [Decimal(status)]), "Status: " + Decimal(status);
    assert [a][1..] == [] && [k][1..] == [];
    assert HeaderLine("Status", a.values[0]) == k;
    assert EntryLines("Status", a.values) == [k];
    assert FormatLines([a]) == [k];
    assert Terminated([k]) == k + [LF];
  }

  lemma {:induction false} BodiesAppend(a: seq<Output>, b: seq<Output>, channel: Channel)
    ensures Bodies(a + b, channel) == Bodies(a, channel) + Bodies(b, channel)
  {
    if a == [] {
      assert a + b == b;
    } else {
      BodiesAppend(a[1..], b, channel);
      assert (a + b)[1..] == a[1..] + b;
      Assoc(if a[0].channel == channel then a[0].body else "", Bodies(a[1..], channel), Bodies(b, channel));
    }
  }

  lemma {:induction false} FramesAppend(a: seq<Output>, b: seq<Output>)
    ensures Frames(a + b) == Frames(a) + Frames(b)
  {
    hide Frame;
    if a == [] {
      assert a + b == b;
    } else {
      FramesAppend(a[1..], b);
      assert (a + b)[1..] == a[1..] + b;
      Assoc(Frame(a[0]), Frames(a[1..]), Frames(b));
    }
  }

  lemma FramesSnoc(a: seq<Output>, w: Output)
    ensures Frames(a + [w]) == Frames(a) + Frame(w)
  {
    FramesAppend(a, [w]);
    hide Frame;
    assert [w][1..] == [];
    assert Frame(w) + "" == Frame(w);
  }

  method FormatAsResponseHeader(channel: Channel, size: int) returns (header: string)
    ensures header == Formatted(ResponseEntries(channel, size), "")
  {
    header := FormatAsHeader(ResponseEntries(channel, size), "");
  }

  method FormatAsExitHeader(status: int, body: string) returns (header: string)
    ensures header == Formatted(ExitEntries(status), body)
  {
    header := FormatAsHeader(ExitEntries(status), body);
  }

  /** The socket's output stream, shared by both channels. */
  class OutputStream {
    var sent: string

    constructor ()
      ensures sent == ""
    {
      sent := "";
    }

    method Write(bytes: string)
      modifies this
      ensures sent == old(sent) + bytes
    {
      sent := sent + bytes;
    }
  }

  class StreamResponseOutputStream {
    const outputStream: OutputStream
    const channel: Channel
    var closed: bool
    const noHeader: bool

    constructor (outputStream: OutputStream, channel: Channel, noHeader: bool)
      ensures this.outputStream == outputStream && this.channel == channel && this.noHeader == noHeader && !closed
    {
      this.outputStream, this.channel, this.noHeader, closed := outputStream, channel, noHeader, false;
    }

    /** write(byte[], int, int): false stands for the IOException of a closed stream. */
    method Write(b: seq<char>, offset: nat, length: nat) returns (ok: bool)
      requires offset + length <= |b|
      modifies outputStream
      ensures ok == !closed
      ensures !ok ==> outputStream.sent == old(outputStream.sent)
      ensures ok && !noHeader ==>
                outputStream.sent == old(outputStream.sent) + Frame(Output(channel, b[offset..offset + length]))
      ensures ok && noHeader ==> outputStream.sent == old(outputStream.sent) + b[offset..offset + length]
    {
      if closed {
        return false;
      }
      var header := FormatAsResponseHeader(channel, length);
      if !noHeader {
        outputStream.Write(header);
      }
      outputStream.Write(b[offset..offset + length]);
      HeaderThenBody(Output(channel, b[offset..offset + length]));
      ok := true;
    }

    /** write(int): the low eight bits. */
    method WriteByte(b: int) returns (ok: bool)
      modifies outputStream
      ensures ok == !closed
      ensures !ok ==> outputStream.sent == old(outputStream.sent)
      ensures ok && !noHeader ==>
                outputStream.sent == old(outputStream.sent) + Frame(Output(channel, [(b % 256) as char]))
      ensures ok && noHeader ==> outputStream.sent == old(outputStream.sent) + [(b % 256) as char]
    {
      if closed {
        return false;
      }
      var buf := [(b % 256) as char];
      assert buf[0..1] == buf;
      ok := Write(buf, 0, 1);
    }

    method Close()
      modifies this
      ensures closed
    {
      closed := true;
    }
  }

  lemma HeaderThenBody(w: Output)
    ensures Formatted(ResponseEntries(w.channel, |w.body|), "") + w.body == Frame(w)
  {
  }

  /** A script's writes to System.out and System.err. */
  method WriteAll(outputStream: OutputStream, writes: seq<Output>)
    modifies outputStream
    ensures outputStream.sent == old(outputStream.sent) + Frames(writes)
  {
    hide Frame;
    var out := new StreamResponseOutputStream(outputStream, Out, false);
    var err := new StreamResponseOutputStream(outputStream, Err, false);
    ghost var before := outputStream.sent;
    assert before + Frames([]) == before;
    hide Frames;
    for i := 0 to |writes|
      invariant !out.closed && !err.closed
      invariant outputStream.sent == before + Frames(writes[..i])
    {
      var w := writes[i];
      var stream := if w.channel.Out? then out else err;
      assert w.body[0..|w.body|] == w.body && w == Output(stream.channel, w.body);
      var ok := stream.Write(w.body, 0, |w.body|);
      assert writes[..i + 1] == writes[..i] + [w];
      FramesSnoc(writes[..i], w);
      Assoc(before, Frames(writes[..i]), Frame(w));
    }
    assert writes[..|writes|] == writes;
  }
}
