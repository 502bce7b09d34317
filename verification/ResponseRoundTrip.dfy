/** The response path end to end: what the server frames, the C client takes apart again. */
module ResponseRoundTrip {
  import opened Text
  import opened Headers
  import opened Response
  import opened ClientSession

  // ----- one header block, read by both parsers -----

  datatype Field = Field(key: string, value: string)

  /** A header that fits the client's records: short alphanumeric key, trimmed one-line value. */
  ghost predicate Fits(f: Field) {
    && 0 < |f.key| < MAX_HEADER_KEY_LEN && (forall i :: 0 <= i < |f.key| ==> IsAlnum(f.key[i]))
    && LF !in f.value && NUL !in f.value && Trimmed(f.value)
    && |f.key| + |f.value| + 3 <= BUFFER_SIZE
  }

  ghost predicate AllFit(fields: seq<Field>) {
    forall i :: 0 <= i < |fields| ==> Fits(fields[i])
  }

  function FieldLines(fields: seq<Field>): seq<string> {
    if fields == [] then [] else [HeaderLine(fields[0].key, fields[0].value)] + FieldLines(fields[1..])
  }

  /** The record as the two strncpy calls leave it. */
  function StoredAs(f: Field, record: Record): (r: Record)
    requires Sized(record)
    ensures Sized(r)
  {
    Record(StrNCopied(record.key, f.key, MAX_HEADER_KEY_LEN), StrNCopied(record.value, f.value, MAX_HEADER_VALUE_LEN))
  }

  /**
   strncpy pads with zeros, so nothing of what the array held before shows. A string of just `n` bytes gets no
   terminator: it reads back exactly when the byte behind it, which nobody wrote, is one.
   */
  lemma CopyHidesOldBytesIff(dst: string, src: string, n: nat)
    requires n < |dst| && |src| <= n && NUL !in src
    ensures UpToNul(StrNCopied(dst, src, n)) == src <==> |src| < n || dst[n] == NUL
  {
    var r := StrNCopied(dst, src, n);
    assert forall j :: 0 <= j < |src| ==> r[j] == src[j];
    assert r[|src|] == if |src| < n then NUL else dst[n];
    if r[|src|] == NUL {
      assert IndexOf(r, NUL) == |src|;
    }
    assert r[..|src|] == src;
  }

  lemma StoredReadsBack(f: Field, record: Record)
    requires Sized(record) && Fits(f)
    ensures UpToNul(StoredAs(f, record).key) == f.key && UpToNul(StoredAs(f, record).value) == f.value
  {
    assert forall i :: 0 <= i < |f.key| ==> IsAlnum(f.key[i]) && f.key[i] != NUL;
    CopyHidesOldBytesIff(record.key, f.key, MAX_HEADER_KEY_LEN);
    CopyHidesOldBytesIff(record.value, f.value, MAX_HEADER_VALUE_LEN);
  }

  lemma {:induction false} AlnumKeyIsFine(key: string)
    requires forall i :: 0 <= i < |key| ==> IsAlnum(key[i])
    ensures CheckKey(key) == Fine
  {
    if key != "" {
      assert IsAlnum(key[0]);
      AlnumKeyIsFine(key[1..]);
    }
  }

  /** strtok and the space skipping find the key and the value of a formatted header line. */
  lemma HeaderLineRead(f: Field, record: Record)
    requires Sized(record) && Fits(f)
    ensures ReadHeader(HeaderLine(f.key, f.value) + [LF], record) == Stored(StoredAs(f, record))
  {
    var line := HeaderLine(f.key, f.value) + [LF];
    assert IsAlnum(f.key[0]) && line[0] == f.key[0];
    assert SkipDelimiters(line) == line;
    assert forall j :: 0 <= j < |f.key| ==> line[j] == f.key[j] && IsAlnum(f.key[j]);
    assert line[|f.key|] == ':';
    assert TokenEnd(line) == |f.key|;
    assert line[..|f.key|] == f.key;
    AlnumKeyIsFine(f.key);
    var after := " " + f.value + [LF];
    assert line[|f.key| + 1..] == after;
    ValueRead(f.value);
    hide StrNCopied, CheckKey, SkipDelimiters, TokenEnd, IndexOf, SkipLineFeeds, SkipSpaces;
  }

  lemma ValueRead(value: string)
    requires LF !in value && Trimmed(value)
    ensures var after := " " + value + [LF];
            SkipLineFeeds(after) == after && SkipSpaces(after[..IndexOf(after, LF)]) == value
  {
    var after := " " + value + [LF];
    assert after[|value| + 1] == LF;
    assert forall j :: 0 <= j < |value| ==> after[j + 1] == value[j];
    assert IndexOf(after, LF) == |value| + 1;
    assert after[..|value| + 1] == " " + value;
    assert (" " + value)[1..] == value;
    assert SkipSpaces(value) == value;
  }

  lemma HeaderLineTaken(f: Field, rest: string)
    requires Fits(f)
    ensures var line := HeaderLine(f.key, f.value) + [LF];
            && LineTaken(line + rest, BUFFER_SIZE) == |line| && (line + rest)[..|line|] == line
            && (line + rest)[|line|..] == rest
            && UpToNul(line) == line && IsAlnum(line[0])
  {
    hide Fits, LineTaken, UpToNul, HeaderLine;
    var text := HeaderLine(f.key, f.value);
    FieldIsOneLine(f);
    OneLineTaken(text, rest);
  }

  lemma FieldIsOneLine(f: Field)
    requires Fits(f)
    ensures var text := HeaderLine(f.key, f.value);
            && 0 < |text| < BUFFER_SIZE && LF !in text && NUL !in text && IsAlnum(text[0])
  {
    var text := HeaderLine(f.key, f.value);
    assert forall j :: 0 <= j < |f.key| ==> text[j] == f.key[j] && IsAlnum(f.key[j]);
    assert LF !in ": " && NUL !in ": ";
    assert LF !in f.key && NUL !in f.key;
  }

  /** A short text and its line feed are read in one go. */
  lemma OneLineTaken(text: string, rest: string)
    requires 0 < |text| < BUFFER_SIZE && LF !in text && NUL !in text
    ensures var line := text + [LF];
            && LineTaken(line + rest, BUFFER_SIZE) == |line| && (line + rest)[..|line|] == line
            && (line + rest)[|line|..] == rest && UpToNul(line) == line && line[0] == text[0]
  {
    var line := text + [LF];
    assert (line + rest)[|text|] == LF && forall j :: 0 <= j < |text| ==> (line + rest)[j] == text[j];
    assert IndexOf(line + rest, LF) == |text|;
    assert forall j :: 0 <= j < |line| ==> line[j] != NUL;
    assert IndexOf(line, NUL) == |line|;
  }

  /** The records after a block: overwritten from `pos` on. */
  function AllStored(fields: seq<Field>, records: seq<Record>, pos: nat): (r: seq<Record>)
    requires AllSized(records) && pos + |fields| <= |records|
    ensures |r| == |records| && AllSized(r)
  {
    if fields == [] then records
    else AllStored(fields[1..], records[pos := StoredAs(fields[0], records[pos])], pos + 1)
  }

  lemma {:induction false} AllStoredAt(fields: seq<Field>, records: seq<Record>, pos: nat, i: nat)
    requires AllFit(fields) && AllSized(records) && pos + |fields| <= |records| && i < |records|
    ensures var r := AllStored(fields, records, pos);
            && (pos <= i < pos + |fields| ==>
                  UpToNul(r[i].key) == fields[i - pos].key && UpToNul(r[i].value) == fields[i - pos].value)
            && (!(pos <= i < pos + |fields|) ==> r[i] == records[i])
    decreases |fields|
  {
    if fields != [] {
      var next := records[pos := StoredAs(fields[0], records[pos])];
      assert AllFit(fields[1..]) && Fits(fields[0]);
      AllStoredAt(fields[1..], next, pos + 1, i);
      StoredReadsBack(fields[0], records[pos]);
      hide StoredAs, UpToNul, Fits, Sized;
    }
  }

  /** A formatted block of fitting headers is stored field by field, and the body is left unread. */
  lemma {:induction false} BlockRead(fields: seq<Field>, body: string, records: seq<Record>, pos: nat)
    requires AllFit(fields) && AllSized(records) && pos + |fields| <= |records|
    ensures ReadBlock(Terminated(FieldLines(fields)) + [LF] + body, records, pos)
         == Block(pos + |fields|, AllStored(fields, records, pos), body)
    decreases |fields|
  {
    var s := Terminated(FieldLines(fields)) + [LF] + body;
    if fields == [] {
      assert s == [LF] + body && s[..1] == [LF] && s[1..] == body;
      assert IndexOf(s, LF) == 0;
    } else {
      var f := fields[0];
      var line := HeaderLine(f.key, f.value) + [LF];
      var rest := Terminated(FieldLines(fields[1..])) + [LF] + body;
      assert s == line + rest by {
        assert FieldLines(fields)[1..] == FieldLines(fields[1..]);
        Assoc(line, Terminated(FieldLines(fields[1..])), [LF]);
        Assoc(line, Terminated(FieldLines(fields[1..])) + [LF], body);
      }
      assert Fits(f);
      HeaderLineTaken(f, rest);
      HeaderLineRead(f, records[pos]);
      var next := records[pos := StoredAs(f, records[pos])];
      assert ReadOne(line, records, pos) == Stores(StoredAs(f, records[pos])) by {
        hide ReadHeader, HeaderLine, UpToNul;
      }
      assert AllFit(fields[1..]);
      hide ReadOne, Fits, StoredAs, HeaderLine, LineTaken, Terminated, FieldLines;
      BlockRead(fields[1..], body, next, pos + 1);
    }
  }

  /** The first value a list of fields gives to a key. */
  function FieldValue(fields: seq<Field>, key: string): Option<string> {
    if fields == [] then None
    else if fields[0].key == key then Some(fields[0].value)
    else FieldValue(fields[1..], key)
  }

  lemma {:induction false} FindHeaderIs(records: seq<Record>, fields: seq<Field>, key: string)
    requires |records| == |fields|
    requires forall i :: 0 <= i < |fields| ==>
               UpToNul(records[i].key) == fields[i].key && UpToNul(records[i].value) == fields[i].value
    ensures FindHeader(records, key) == FieldValue(fields, key)
  {
    if fields != [] {
      hide UpToNul;
      FindHeaderIs(records[1..], fields[1..], key);
    }
  }

  lemma ParsedFieldValue(fields: seq<Field>, key: string)
    requires AllFit(fields)
    ensures First(Parsed(FieldLines(fields)), key) == FieldValue(fields, key)
  {
    hide KeyOf, ValueOf, KeysOf, AllFit;
    FieldValueIsFirst(fields, key);
    ValuesForNone(FieldLines(fields), key);
  }

  lemma {:induction false} FieldValueIsFirst(fields: seq<Field>, key: string)
    requires AllFit(fields)
    ensures var values := ValuesFor(FieldLines(fields), key);
            FieldValue(fields, key) == if values == [] then None else Some(values[0])
  {
    if fields != [] {
      assert Fits(fields[0]) && AllFit(fields[1..]);
      FieldParses(fields[0]);
      hide HeaderLine, KeyOf, ValueOf, Fits;
      FieldValueIsFirst(fields[1..], key);
      assert FieldLines(fields)[1..] == FieldLines(fields[1..]);
    }
  }

  lemma FieldParses(f: Field)
    requires Fits(f)
    ensures KeyOf(HeaderLine(f.key, f.value)) == f.key && ValueOf(HeaderLine(f.key, f.value)) == f.value
  {
    assert GoodKey(f.key) by {
      assert forall i :: 0 <= i < |f.key| ==> IsAlnum(f.key[i]) && f.key[i] != ':' && f.key[i] != LF;
    }
    hide Trim, HeaderLine, KeyOf, ValueOf;
    HeaderLineParses(f.key, f.value);
    TrimFixpoint(f.value);
  }

  /**
   The two header parsers agree: on every block the server formats within the client's limits, looking
   a key up in the client's records, whatever they held before, gives the value of the server's map,
   and both stop at the first byte of the body.
   */
  lemma ParsersAgree(fields: seq<Field>, body: string, records: seq<Record>, key: string)
    requires AllFit(fields) && AllSized(records) && |fields| <= |records|
    ensures var s := Terminated(FieldLines(fields)) + [LF] + body;
            var r := ReadBlock(s, records, 0);
            && r.Block? && r.count == |fields| && r.rest == body == AfterBlock(s)
            && FindHeader(r.records[..r.count], key) == First(Parsed(BlockLines(s)), key)
  {
    hide AllFit, AllSized, AllStored, ReadBlock, FindHeader, FieldValue, Parsed, BlockLines, AfterBlock, First,
      Terminated, FieldLines, UpToNul;
    BlockRead(fields, body, records, 0);
    var stored := AllStored(fields, records, 0);
    forall i | 0 <= i < |fields|
      ensures UpToNul(stored[i].key) == fields[i].key && UpToNul(stored[i].value) == fields[i].value
    {
      AllStoredAt(fields, records, 0, i);
    }
    FindHeaderIs(stored[..|fields|], fields, key);
    ParsedFieldValue(fields, key);
    FieldLinesAreLines(fields);
    BlockRoundTrip(FieldLines(fields), body);
  }

  lemma {:induction false} FieldLinesAreLines(fields: seq<Field>)
    requires AllFit(fields)
    ensures forall i :: 0 <= i < |FieldLines(fields)| ==> FieldLines(fields)[i] != "" && LF !in FieldLines(fields)[i]
  {
    if fields != [] {
      var f := fields[0];
      assert Fits(f) && AllFit(fields[1..]);
      FieldLinesAreLines(fields[1..]);
      assert forall i :: 0 <= i < |f.key| ==> IsAlnum(f.key[i]) && f.key[i] != LF;
      assert LF !in f.key && LF !in ": " && LF !in f.value;
      assert LF !in HeaderLine(f.key, f.value);
    }
  }

  // ----- frames -----

  function FrameFields(channel: Channel, size: int): seq<Field> {
    [Field("Channel", StreamId(channel)), Field("Size", Decimal(size))]
  }

  function ExitFields(status: int): seq<Field> {
    [Field("Status", Decimal(status))]
  }

  lemma OneField(key: string, value: string)
    requires key != ""
    ensures FormatLines([Entry(key, [value])]) == [HeaderLine(key, value)] == FieldLines([Field(key, value)])
  {
    assert [Entry(key, [value])][1..] == [] && [Field(key, value)][1..] == [];
    assert EntryLines(key, [value]) == [HeaderLine(key, value)];
  }

  lemma TwoFields(k: string, v: string, k': string, v': string)
    requires k != "" && k' != ""
    ensures FormatLines([Entry(k, [v]), Entry(k', [v'])]) == [HeaderLine(k, v), HeaderLine(k', v')]
         == FieldLines([Field(k, v), Field(k', v')])
  {
    OneField(k', v');
    assert [Entry(k, [v]), Entry(k', [v'])][1..] == [Entry(k', [v'])];
    assert [Field(k, v), Field(k', v')][1..] == [Field(k', v')];
    assert EntryLines(k, [v]) == [HeaderLine(k, v)];
  }

  /** The server's header block for a body of `size` bytes, and whatever text follows it. */
  lemma HeaderIsBlock(channel: Channel, size: int, t: string)
    ensures Formatted(ResponseEntries(channel, size), t)
         == Terminated(FieldLines(FrameFields(channel, size))) + [LF] + t
  {
    TwoFields("Channel", StreamId(channel), "Size", Decimal(size));
  }

  lemma ExitIsBlock(status: int)
    ensures ExitFrame(status) == Terminated(FieldLines(ExitFields(status))) + [LF]
  {
    OneField("Status", Decimal(status));
  }

  lemma FieldsFit(channel: Channel, n: int)
    requires Int32(n)
    ensures AllFit(FrameFields(channel, n)) && AllFit(ExitFields(n))
  {
    Int32Length(n);
    DecimalIsClean(n);
    hide Decimal;
  }

  lemma TwoFieldValues(a: Field, b: Field, key: string)
    ensures a.key == key ==> FieldValue([a, b], key) == Some(a.value)
    ensures a.key != key && b.key == key ==> FieldValue([a, b], key) == Some(b.value)
    ensures a.key != key && b.key != key ==> FieldValue([a, b], key) == None
  {
    assert [a, b][1..] == [b] && [b][1..] == [];
    assert FieldValue([b], key) == if b.key == key then Some(b.value) else None;
  }

  lemma FrameDispatch(records: seq<Record>, channel: Channel, size: int)
    requires |records| == 2
    requires FindHeader(records, "Status") == FieldValue(FrameFields(channel, size), "Status")
    requires FindHeader(records, "Channel") == FieldValue(FrameFields(channel, size), "Channel")
    requires FindHeader(records, "Size") == FieldValue(FrameFields(channel, size), "Size")
    ensures Dispatched(records) == Copy(channel, size)
  {
    DecimalRoundTrip(size);
    var a, b := Field("Channel", StreamId(channel)), Field("Size", Decimal(size));
    hide Decimal, FindHeader, FieldValue;
    assert "Channel" != "Status" && "Size" != "Status" && "Channel" != "Size" by {
      assert |"Channel"| == 7 && |"Status"| == 6 && |"Size"| == 4;
    }
    TwoFieldValues(a, b, "Status");
    TwoFieldValues(a, b, "Channel");
    TwoFieldValues(a, b, "Size");
    assert ChannelOf(StreamId(channel)) == Some(channel);
  }

  lemma ExitDispatch(records: seq<Record>, status: int)
    requires |records| == 1
    requires FindHeader(records, "Status") == FieldValue(ExitFields(status), "Status")
    ensures Dispatched(records) == Finish(Returned(status))
  {
    DecimalRoundTrip(status);
    hide Decimal, FindHeader;
  }

  /** The records of a block, looked up. */
  lemma BlockLookup(fields: seq<Field>, body: string, records: seq<Record>, key: string)
    requires AllFit(fields) && AllSized(records) && |fields| <= |records|
    ensures FindHeader(AllStored(fields, records, 0)[..|fields|], key) == FieldValue(fields, key)
  {
    var stored := AllStored(fields, records, 0);
    forall i | 0 <= i < |fields|
      ensures UpToNul(stored[i].key) == fields[i].key && UpToNul(stored[i].value) == fields[i].value
    {
      AllStoredAt(fields, records, 0, i);
    }
    FindHeaderIs(stored[..|fields|], fields, key);
  }

  lemma SessionFinishes(s: string, records: seq<Record>, end: End)
    requires AllSized(records) && ReadBlock(s, records, 0).Block?
    requires var r := ReadBlock(s, records, 0); Dispatched(r.records[..r.count]) == Finish(end)
    ensures Demultiplexed(s, records) == Session("", "", end, ReadBlock(s, records, 0).rest)
  {
    hide ReadBlock, Dispatched;
  }

  lemma SessionCopies(s: string, records: seq<Record>, channel: Channel, size: int)
    requires AllSized(records) && ReadBlock(s, records, 0).Block?
    requires var r := ReadBlock(s, records, 0); Dispatched(r.records[..r.count]) == Copy(channel, size)
    ensures var r := ReadBlock(s, records, 0);
            Demultiplexed(s, records) == Copied(channel, size, r.rest, r.records)
  {
    hide ReadBlock, Dispatched;
  }

  /** The copying of `size` bytes out of `t`, and the session behind them. */
  function Copied(channel: Channel, size: int, t: string, next: seq<Record>): Session
    requires AllSized(next)
  {
    var n := BodyLength(size, |t|);
    var later := Demultiplexed(t[n..], next);
    Session((if channel.Out? then t[..n] else "") + later.out, (if channel.Err? then t[..n] else "") + later.err,
            later.end, later.rest)
  }

  /** After a frame header the client copies as much of its body as there is. */
  lemma HeaderDemultiplexed(channel: Channel, size: int, t: string, records: seq<Record>) returns (next: seq<Record>)
    requires Int32(size) && AllSized(records) && |records| == MAX_HEADER
    ensures AllSized(next) && |next| == MAX_HEADER
    ensures Demultiplexed(Formatted(ResponseEntries(channel, size), t), records) == Copied(channel, size, t, next)
  {
    var fields := FrameFields(channel, size);
    HeaderIsBlock(channel, size, t);
    FieldsFit(channel, size);
    BlockRead(fields, t, records, 0);
    BlockLookup(fields, t, records, "Status");
    BlockLookup(fields, t, records, "Channel");
    BlockLookup(fields, t, records, "Size");
    next := AllStored(fields, records, 0);
    hide ReadBlock, Dispatched, Formatted, AllStored, FindHeader, FieldValue, FieldLines, Terminated;
    hide Demultiplexed, Copied;
    FrameDispatch(next[..2], channel, size);
    SessionCopies(Formatted(ResponseEntries(channel, size), t), records, channel, size);
  }

  /** One frame: its body goes to its stream, and the session goes on behind it. */
  lemma FrameDemultiplexed(w: Output, rest: string, records: seq<Record>) returns (next: seq<Record>)
    requires Int32(|w.body|) && AllSized(records) && |records| == MAX_HEADER
    ensures AllSized(next) && |next| == MAX_HEADER
    ensures var later := Demultiplexed(rest, next);
            Demultiplexed(Frame(w) + rest, records)
            == Session((if w.channel.Out? then w.body else "") + later.out,
                       (if w.channel.Err? then w.body else "") + later.err, later.end, later.rest)
  {
    assert Frame(w) + rest == Formatted(ResponseEntries(w.channel, |w.body|), w.body + rest);
    next := HeaderDemultiplexed(w.channel, |w.body|, w.body + rest, records);
    hide Demultiplexed, Frame, Formatted;
    assert BodyLength(|w.body|, |w.body + rest|) == |w.body|;
    assert (w.body + rest)[..|w.body|] == w.body && (w.body + rest)[|w.body|..] == rest;
  }

  /** The exit frame ends the session with its status and reads nothing behind it. */
  lemma ExitDemultiplexed(status: int, rest: string, records: seq<Record>)
    requires Int32(status) && AllSized(records) && |records| == MAX_HEADER
    ensures Demultiplexed(ExitFrame(status) + rest, records) == Session("", "", Returned(status), rest)
  {
    var fields := ExitFields(status);
    FieldsFit(Out, status);
    ExitIsBlock(status);
    hide *;
    assert |fields| == 1 by { ExitFieldsOne(status); }
    var stored := AllStored(fields, records, 0);
    BlockRead(fields, rest, records, 0);
    BlockLookup(fields, rest, records, "Status");
    ExitDispatch(stored[..1], status);
    SessionFinishes(ExitFrame(status) + rest, records, Returned(status));
  }

  lemma ExitFieldsOne(status: int)
    ensures |ExitFields(status)| == 1
  {
  }

  /** The end of the stream where a frame could start ends the session with status 0. */
  lemma EndOfStream(records: seq<Record>)
    requires AllSized(records)
    ensures Demultiplexed("", records) == Session("", "", Returned(0), "")
  {
  }

  ghost predicate AllInt32(writes: seq<Output>) {
    forall i :: 0 <= i < |writes| ==> Int32(|writes[i].body|)
  }

  /** `after` follows the frames in the stream; the frames add their bodies in front of what it yields. */
  lemma {:induction false} FramesDemultiplexed(writes: seq<Output>, after: string, records: seq<Record>)
    returns (last: seq<Record>)
    requires AllInt32(writes) && AllSized(records) && |records| == MAX_HEADER
    ensures AllSized(last) && |last| == MAX_HEADER
    ensures var later := Demultiplexed(after, last);
            Demultiplexed(Frames(writes) + after, records)
            == Session(Bodies(writes, Out) + later.out, Bodies(writes, Err) + later.err, later.end, later.rest)
  {
    hide Demultiplexed, Frame;
    if writes == [] {
      last := records;
      assert Frames(writes) + after == after;
    } else {
      var w := writes[0];
      assert AllInt32(writes[1..]);
      var next := FrameDemultiplexed(w, Frames(writes[1..]) + after, records);
      last := FramesDemultiplexed(writes[1..], after, next);
      Assoc(Frame(w), Frames(writes[1..]), after);
      var later := Demultiplexed(after, last);
      Assoc(if w.channel.Out? then w.body else "", Bodies(writes[1..], Out), later.out);
      Assoc(if w.channel.Err? then w.body else "", Bodies(writes[1..], Err), later.err);
    }
  }

  /**
   The response round trip. For every sequence of writes, whatever their bytes and lengths, and every
   exit status, the client prints exactly the bytes of each stream, returns the status and reads nothing behind
   the exit frame, whatever its uninitialised records held.
   */
  lemma ResponseDemultiplexed(writes: seq<Output>, status: int, rest: string, records: seq<Record>)
    requires AllInt32(writes) && Int32(status) && AllSized(records) && |records| == MAX_HEADER
    ensures Demultiplexed(Frames(writes) + ExitFrame(status) + rest, records)
         == Session(Bodies(writes, Out), Bodies(writes, Err), Returned(status), rest)
  {
    hide Demultiplexed, Frames, ExitFrame, Bodies;
    var last := FramesDemultiplexed(writes, ExitFrame(status) + rest, records);
    ExitDemultiplexed(status, rest, last);
    Assoc(Frames(writes), ExitFrame(status), rest);
    assert Bodies(writes, Out) + "" == Bodies(writes, Out) && Bodies(writes, Err) + "" == Bodies(writes, Err);
  }

  lemma CopiedToTheEnd(channel: Channel, size: int, part: string, next: seq<Record>)
    requires |part| <= size && AllSized(next)
    ensures Copied(channel, size, part, next)
         == Session(if channel.Out? then part else "", if channel.Err? then part else "", Returned(0), "")
  {
    EndOfStream(next);
    hide Demultiplexed;
    assert BodyLength(size, |part|) == |part| && part[..|part|] == part && part[|part|..] == "";
  }

  /** A server that vanishes inside a body: everything that arrived is printed, and the status is 0. */
  lemma TruncatedResponse(writes: seq<Output>, channel: Channel, size: int, part: string, records: seq<Record>)
    requires AllInt32(writes) && Int32(size) && |part| <= size && AllSized(records) && |records| == MAX_HEADER
    ensures var all := writes + [Output(channel, part)];
            Demultiplexed(Frames(writes) + Formatted(ResponseEntries(channel, size), part), records)
            == Session(Bodies(all, Out), Bodies(all, Err), Returned(0), "")
  {
    var tail, w := Formatted(ResponseEntries(channel, size), part), Output(channel, part);
    var last := FramesDemultiplexed(writes, tail, records);
    var next := HeaderDemultiplexed(channel, size, part, last);
    CopiedToTheEnd(channel, size, part, next);
    BodiesSnoc(writes, w, Out);
    BodiesSnoc(writes, w, Err);
    hide *;
    assert channel.Out? <==> !channel.Err?;
  }

  lemma BodiesSnoc(writes: seq<Output>, w: Output, channel: Channel)
    ensures Bodies(writes + [w], channel) == Bodies(writes, channel) + if w.channel == channel then w.body else ""
  {
    BodiesAppend(writes, [w], channel);
    assert [w][1..] == [];
  }

  /**
   What the client makes of any block within its limits: a status ends the session, else a channel and a size are
   needed, and the channel must be one of the two.
   */
  lemma BlockDispatched(fields: seq<Field>, body: string, records: seq<Record>)
    requires AllFit(fields) && AllSized(records) && |fields| <= |records|
    ensures var session := Demultiplexed(Terminated(FieldLines(fields)) + [LF] + body, records);
            var status, channel := FieldValue(fields, "Status"), FieldValue(fields, "Channel");
            var size := FieldValue(fields, "Size");
            && (fields == [] ==> session == Session("", "", Returned(0), body))
            && (status.Some? ==> session == Session("", "", Returned(Atoi(status.value)), body))
            && (fields != [] && status == None && (channel == None || size == None) ==>
                  session == Session("", "", Returned(1), body))
            && (status == None && channel.Some? && size.Some? && channel.value != "out" && channel.value != "err" ==>
                  session == Session("", "", ProcessExit(1), body))
  {
    hide Demultiplexed, ReadBlock, AllStored, FindHeader, FieldLines, Terminated, AllFit, AllSized;
    BlockRead(fields, body, records, 0);
    BlockLookup(fields, body, records, "Status");
    BlockLookup(fields, body, records, "Channel");
    BlockLookup(fields, body, records, "Size");
    var s := Terminated(FieldLines(fields)) + [LF] + body;
    var looked := AllStored(fields, records, 0)[..|fields|];
    NoFieldNoValue(fields);
    hide FieldValue;
    if Dispatched(looked).Finish? {
      SessionFinishes(s, records, Dispatched(looked).end);
    }
  }

  lemma NoFieldNoValue(fields: seq<Field>)
    ensures fields == [] ==> forall key :: FieldValue(fields, key) == None
  {
  }

  /** A negative size copies nothing. */
  lemma NegativeSizeSkipped(channel: Channel, size: int, t: string, records: seq<Record>) returns (next: seq<Record>)
    requires Int32(size) && size < 0 && AllSized(records) && |records| == MAX_HEADER
    ensures AllSized(next) && |next| == MAX_HEADER
    ensures Demultiplexed(Formatted(ResponseEntries(channel, size), t), records) == Demultiplexed(t, next)
  {
    next := HeaderDemultiplexed(channel, size, t, records);
    hide Demultiplexed, Formatted, ResponseEntries;
    var later := Demultiplexed(t, next);
    assert t[0..] == t && t[..0] == "" && "" + later.out == later.out && "" + later.err == later.err;
  }

  /** Ten headers fill the records; one more overruns them. */
  lemma {:induction false} EleventhOverruns(fields: seq<Field>, rest: string, records: seq<Record>, pos: nat)
    requires AllFit(fields) && AllSized(records) && pos <= |records| && pos + |fields| == |records| + 1
    ensures ReadBlock(Terminated(FieldLines(fields)) + rest, records, pos) == Overrun
    decreases |fields|
  {
    var f := fields[0];
    var line, later := HeaderLine(f.key, f.value) + [LF], Terminated(FieldLines(fields[1..])) + rest;
    assert Fits(f) && AllFit(fields[1..]);
    assert FieldLines(fields)[1..] == FieldLines(fields[1..]);
    assert Terminated(FieldLines(fields)) + rest == line + later by {
      Assoc(line, Terminated(FieldLines(fields[1..])), rest);
    }
    HeaderLineTaken(f, later);
    assert FirstChar(line) == line[0];
    if pos < |records| {
      HeaderLineRead(f, records[pos]);
      var next := records[pos := StoredAs(f, records[pos])];
      assert ReadOne(line, records, pos) == Stores(StoredAs(f, records[pos])) by {
        hide ReadHeader, HeaderLine, UpToNul;
      }
      hide ReadOne, Fits, StoredAs, HeaderLine, LineTaken, Terminated, FieldLines;
      EleventhOverruns(fields[1..], rest, next, pos + 1);
    }
  }

  /** So a block of eleven headers ends a session of the client with the overrun, before any output. */
  lemma ElevenHeaders(fields: seq<Field>, rest: string, records: seq<Record>)
    requires AllFit(fields) && |fields| == 11 && AllSized(records) && |records| == MAX_HEADER
    ensures Demultiplexed(Terminated(FieldLines(fields)) + rest, records).end == RecordOverrun
  {
    EleventhOverruns(fields, rest, records, 0);
    hide ReadBlock, Terminated, FieldLines;
  }

  /** A line feed behind a carriage return is an empty line too; a NUL ends the headers as if there had been none. */
  lemma OtherEnds(rest: string, records: seq<Record>, pos: nat)
    requires AllSized(records) && pos <= |records|
    ensures ReadBlock("\r\n" + rest, records, pos) == Block(pos, records, rest)
    ensures ReadBlock([NUL] + rest, records, pos).Block? && ReadBlock([NUL] + rest, records, pos).count == 0
  {
    var s := "\r\n" + rest;
    assert s[0] == CR && s[1] == LF && IndexOf(s, LF) == 1;
    assert s[..2] == "\r\n" && s[2..] == rest;
    var t := [NUL] + rest;
    assert t[..LineTaken(t, BUFFER_SIZE)][0] == NUL;
    hide LineTaken;
  }

  /** A line without a line feed is cut after 512 bytes. */
  lemma LongLineCut(s: string)
    requires |s| >= 512 && forall i :: 0 <= i < 512 ==> s[i] != LF
    ensures LineTaken(s, BUFFER_SIZE) == 512
  {
  }

  /** A key that starts with the byte 24, CANCEL, ends the process with 0; with another odd one, with 1. */
  lemma OddKeyExits(c: char, line: string, record: Record)
    requires Sized(record) && |line| < 30 && c != ':' && c != ' ' && !(9 as char <= c <= 13 as char)
    requires !('0' <= c <= '9') && !('a' <= c <= 'z') && !('A' <= c <= 'Z')
    ensures ReadHeader([c] + line, record) == Exits(if c == 24 as char then 0 else 1)
  {
    var t := [c] + line;
    assert t[0] == c && SkipDelimiters(t) == t && TokenEnd(t) >= 1;
    hide SkipDelimiters, TokenEnd;
    assert t[..TokenEnd(t)][0] == c;
  }

  /** A word alone on its line runs into the line feed, which is white space, and the record keeps what it held. */
  lemma LoneWordKeepsRecord(key: string, record: Record)
    requires Sized(record) && 0 < |key| < 30 && forall i :: 0 <= i < |key| ==> IsAlnum(key[i])
    ensures ReadHeader(key + [LF], record) == Stored(record)
  {
    var t := key + [LF];
    assert IsAlnum(key[0]) && t[0] == key[0];
    assert forall j :: 0 <= j < |key| ==> t[j] == key[j] && IsAlnum(t[j]);
    assert SkipDelimiters(t) == t && TokenEnd(t) == |t| && t[..|t|] == t;
    BlankBehindWord(key, LF, "");
    assert key + [LF] + "" == t;
    hide SkipDelimiters, TokenEnd, CheckKey;
  }

  lemma {:induction false} BlankBehindWord(key: string, c: char, rest: string)
    requires (forall i :: 0 <= i < |key| ==> IsAlnum(key[i])) && IsSpace(c)
    ensures CheckKey(key + [c] + rest) == Blanked
  {
    var t := key + [c] + rest;
    if key == "" {
      assert t[0] == c;
    } else {
      assert t[0] == key[0] && IsAlnum(key[0]) && t[1..] == key[1..] + [c] + rest;
      BlankBehindWord(key[1..], c, rest);
    }
  }

  /** A key without a value, a key of more than 30 bytes or a value of more than 512 ends the process with 1. */
  lemma BadHeaderExits(key: string, value: string, record: Record)
    requires Sized(record) && key != "" && forall i :: 0 <= i < |key| ==> IsAlnum(key[i])
    requires LF !in value && Trimmed(value)
    ensures ReadHeader(key, record) == Exits(1)
    ensures |key| > 30 || |value| > 512 ==> ReadHeader(key + ": " + value + [LF], record) == Exits(1)
    ensures |key| <= 30 && |value| <= 512 ==> ReadHeader(key + ": " + value + [LF], record).Stored?
  {
    KeyAlone(key);
    KeyInFront(key, value);
    AlnumKeyIsFine(key);
    ValueRead(value);
    hide StrNCopied, CheckKey, SkipDelimiters, TokenEnd, IndexOf, SkipSpaces;
  }

  /** strtok reads over delimiters in front of a key; a ':' and nothing behind it is a key without a value. */
  lemma DelimitersInHeaders(key: string, line: string, record: Record)
    requires Sized(record) && 0 < |key| <= 30 && forall i :: 0 <= i < |key| ==> IsAlnum(key[i])
    ensures ReadHeader(" :" + line, record) == ReadHeader(line, record)
    ensures ReadHeader(key + ":" + [LF], record) == Exits(1)
  {
    assert (" :" + line)[1..] == ":" + line && (":" + line)[1..] == line;
    assert SkipDelimiters(" :" + line) == SkipDelimiters(":" + line) == SkipDelimiters(line);
    var t := key + ":" + [LF];
    assert IsAlnum(key[0]) && t[0] == key[0];
    assert forall j :: 0 <= j < |key| ==> t[j] == key[j] && IsAlnum(t[j]);
    assert t[|key|] == ':' && SkipDelimiters(t) == t && TokenEnd(t) == |key| && t[..|key|] == key;
    assert t[|key| + 1..] == [LF] && [LF][1..] == "";
    AlnumKeyIsFine(key);
    assert SkipLineFeeds([LF]) == SkipLineFeeds("") == "";
    hide SkipDelimiters, TokenEnd, CheckKey, SkipLineFeeds;
  }

  lemma KeyAlone(key: string)
    requires key != "" && forall i :: 0 <= i < |key| ==> IsAlnum(key[i])
    ensures SkipDelimiters(key) == key && TokenEnd(key) == |key| && key[..|key|] == key
  {
    assert IsAlnum(key[0]);
  }

  lemma KeyInFront(key: string, value: string)
    requires key != "" && forall i :: 0 <= i < |key| ==> IsAlnum(key[i])
    ensures var line := key + ": " + value + [LF];
            && SkipDelimiters(line) == line && TokenEnd(line) == |key| && line[..|key|] == key
            && line[|key| + 1..] == " " + value + [LF]
  {
    var line := key + ": " + value + [LF];
    assert IsAlnum(key[0]) && line[0] == key[0];
    assert forall j :: 0 <= j < |key| ==> line[j] == key[j] && IsAlnum(key[j]);
    assert line[|key|] == ':';
  }

  /** The stream of a channel. */
  function Printed(session: Session, channel: Channel): string {
    if channel.Out? then session.out else session.err
  }

  function FrameHeader(w: Output): string {
    Formatted(ResponseEntries(w.channel, |w.body|), "")
  }

  /** Two frames whose headers were written before their bodies. */
  function Interleaved(first: Output, second: Output): string {
    FrameHeader(first) + (FrameHeader(second) + (first.body + second.body))
  }

  lemma HeaderThenText(w: Output, t: string)
    ensures FrameHeader(w) + t == Formatted(ResponseEntries(w.channel, |w.body|), t)
  {
    hide FormatLines, Terminated, ResponseEntries;
  }

  lemma FrontOf(own: string, rest: string, n: nat)
    requires n <= |own|
    ensures (own + rest)[..n] == own[..n]
  {
  }

  /** For the first of two interleaved frames the client prints the front of the second's header and its own body. */
  lemma InterleavedPrints(first: Output, second: Output, rest: string, records: seq<Record>)
    requires Int32(|first.body|) && AllSized(records) && |records| == MAX_HEADER
    ensures var printed := Printed(Demultiplexed(Interleaved(first, second) + rest, records), first.channel);
            (FrameHeader(second) + first.body)[..|first.body|] <= printed
  {
    hide Demultiplexed, Formatted, ResponseEntries, FrameHeader, AllSized, Int32;
    var n := |first.body|;
    var own := FrameHeader(second) + first.body;
    var t := own + (second.body + rest);
    HeaderThenText(first, t);
    assert Interleaved(first, second) + rest == FrameHeader(first) + t;
    var next := HeaderDemultiplexed(first.channel, n, t, records);
    assert BodyLength(n, |t|) == n;
    FrontOf(own, second.body + rest, n);
  }

  /**
   The frames must not interleave, which the server's commented-out synchronized block would ensure: when another
   thread's header comes between a frame's header and body, that body is printed right exactly when it is the front
   of the other header followed by itself.
   */
  lemma InterleavedBodyRightIff(first: Output, second: Output, rest: string, records: seq<Record>)
    requires Int32(|first.body|) && AllSized(records) && |records| == MAX_HEADER
    ensures var printed := Printed(Demultiplexed(Interleaved(first, second) + rest, records), first.channel);
            first.body <= printed <==> first.body <= FrameHeader(second) + first.body
  {
    InterleavedPrints(first, second, rest, records);
    hide Demultiplexed, FrameHeader, Interleaved;
  }

  /** One letter printed wrong: whatever the other frame and whatever follows, "a" comes out as "C". */
  lemma InterleavingCorrupts(second: Output, rest: string, records: seq<Record>)
    requires AllSized(records) && |records| == MAX_HEADER
    ensures var session := Demultiplexed(Interleaved(Output(Out, "a"), second) + rest, records);
            session.out != "" && session.out[0] == 'C' && !("a" <= session.out)
  {
    InterleavedPrints(Output(Out, "a"), second, rest, records);
    HeaderStarts(second);
    hide Demultiplexed, FrameHeader, Interleaved;
    var header := FrameHeader(second);
    assert (header + "a")[..1] == [header[0]];
  }

  lemma TwoFrames(a: Output, b: Output)
    ensures Frames([a, b]) == (FrameHeader(a) + a.body) + (FrameHeader(b) + b.body)
  {
    HeaderThenBody(a);
    HeaderThenBody(b);
    hide Frame;
    assert [a, b][1..] == [b] && [b][1..] == [];
    assert Frames([b]) == Frame(b) + "";
  }

  /** A body that is the other frame's header itself does no harm: bodies and status come out right. */
  lemma HarmlessInterleaving(channel: Channel, second: Output, status: int, rest: string, records: seq<Record>)
    requires Int32(|second.body|) && Int32(|FrameHeader(second)|) && Int32(status)
    requires AllSized(records) && |records| == MAX_HEADER
    ensures var first := Output(channel, FrameHeader(second));
            Demultiplexed(Interleaved(first, second) + (ExitFrame(status) + rest), records)
            == Session(Bodies([first, second], Out), Bodies([first, second], Err), Returned(status), rest)
  {
    hide Demultiplexed, ExitFrame, Formatted, Frame, Bodies, Frames, FrameHeader, AllSized, Int32;
    var first := Output(channel, FrameHeader(second));
    var writes := [first, second];
    TwoFrames(first, second);
    ResponseDemultiplexed(writes, status, rest, records);
    assert Interleaved(first, second) == Frames(writes);
    Assoc(Frames(writes), ExitFrame(status), rest);
  }

  lemma HeaderStarts(w: Output)
    ensures FrameHeader(w) != "" && FrameHeader(w)[0] == 'C'
  {
    HeaderIsBlock(w.channel, |w.body|, "");
    hide Decimal;
    var lines := FieldLines(FrameFields(w.channel, |w.body|));
    assert lines[0] == HeaderLine("Channel", StreamId(w.channel));
    assert Terminated(lines) == lines[0] + [LF] + Terminated(lines[1..]);
  }
}
