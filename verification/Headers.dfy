/**
 Header blocks as the server reads and writes them: IOUtils.readLine and readLines,
 ClientProtocols.parseHeaders and formatAsHeader.
 */
module Headers {
  import opened Text
  import opened Sockets

  // ----- reading lines -----

  function LineOf(s: string): string {
    s[..IndexOf(s, LF)]
  }

  function AfterLine(s: string): string {
    var i := IndexOf(s, LF);
    if i < |s| then s[i + 1..] else ""
  }

  /** The lines of a header block: up to an empty line or the end of the stream. */
  function BlockLines(s: string): seq<string>
    decreases |s|
  {
    if LineOf(s) == "" then [] else [LineOf(s)] + BlockLines(AfterLine(s))
  }

  function AfterBlock(s: string): (rest: string)
    ensures |rest| <= |s|
    ensures s != "" ==> |rest| < |s|
    decreases |s|
  {
    if LineOf(s) == "" then AfterLine(s) else AfterBlock(AfterLine(s))
  }

  /** Whether the block ends before the stream does. */
  predicate Complete(s: string)
    decreases |s|
  {
    LF in s && (LineOf(s) == "" || Complete(AfterLine(s)))
  }

  method ReadLine(ins: Socket) returns (line: string)
    modifies ins`rest, ins`failed
    ensures line == LineOf(old(ins.rest)) && ins.rest == AfterLine(old(ins.rest))
    ensures ins.failed <==> ins.broken && LF !in old(ins.rest)
  {
    line := "";
    var c := ins.ReadByte();
    while c.Some? && c.value != LF
      invariant LF !in line
      invariant c.Some? ==> old(ins.rest) == line + [c.value] + ins.rest
      invariant c.None? ==> old(ins.rest) == line && ins.rest == ""
      invariant ins.failed <==> ins.broken && c.None?
      decreases c.Some?, |ins.rest|
    {
      line := line + [c.value];
      c := ins.ReadByte();
    }
    if c.Some? {
      LineRoundTrip(line, ins.rest);
    } else {
      assert IndexOf(line, LF) == |line|;
    }
  }

  lemma BlockStep(s: string)
    ensures LineOf(s) == "" ==> BlockLines(s) == [] && AfterBlock(s) == AfterLine(s)
    ensures LineOf(s) != "" ==>
              && BlockLines(s) == [LineOf(s)] + BlockLines(AfterLine(s))
              && AfterBlock(s) == AfterBlock(AfterLine(s)) && |AfterLine(s)| < |s|
              && Complete(s) == Complete(AfterLine(s))
    ensures LineOf(s) == "" ==> (Complete(s) <==> LF in s)
  {
    var line, after := LineOf(s), AfterLine(s);
    if line != "" {
      assert |after| < |s|;
    }
    if LF !in s {
      assert IndexOf(s, LF) == |s| && after == "";
    }
    hide LineOf, AfterLine;
  }

  method ReadLines(ins: Socket) returns (lines: seq<string>)
    modifies ins`rest, ins`failed
    ensures lines == BlockLines(old(ins.rest)) && ins.rest == AfterBlock(old(ins.rest))
    ensures ins.failed <==> ins.broken && !Complete(old(ins.rest))
  {
    hide LineOf, AfterLine, BlockLines, AfterBlock, Complete;
    lines := [];
    ghost var before := ins.rest;
    var line := ReadLine(ins);
    while line != ""
      invariant lines + BlockLines(before) == BlockLines(old(ins.rest))
      invariant AfterBlock(before) == AfterBlock(old(ins.rest)) && Complete(before) == Complete(old(ins.rest))
      invariant ins.failed <==> ins.broken && LF !in before
      invariant line == LineOf(before) && ins.rest == AfterLine(before)
      decreases |before|
    {
      BlockStep(before);
      Assoc(lines, [line], BlockLines(ins.rest));
      lines := lines + [line];
      before := ins.rest;
      line := ReadLine(ins);
    }
    BlockStep(before);
  }

  // ----- parsing -----

  type HeaderMap = map<string, seq<string>>

  function KeyOf(line: string): string {
    line[..IndexOf(line, ':')]
  }

  function ValueOf(line: string): string {
    var i := IndexOf(line, ':');
    Trim(if i < |line| then line[i + 1..] else "")
  }

  /** The values that `lines` give to `key`, in order. */
  function ValuesFor(lines: seq<string>, key: string): seq<string> {
    if lines == [] then []
    else (if KeyOf(lines[0]) == key then [ValueOf(lines[0])] else []) + ValuesFor(lines[1..], key)
  }

  function KeysOf(lines: seq<string>): set<string> {
    set i | 0 <= i < |lines| :: KeyOf(lines[i])
  }

  /** Every key with all its values. */
  function Parsed(lines: seq<string>): HeaderMap {
    map key | key in KeysOf(lines) :: ValuesFor(lines, key)
  }

  lemma {:induction false} ValuesForAppend(a: seq<string>, b: seq<string>, key: string)
    ensures ValuesFor(a + b, key) == ValuesFor(a, key) + ValuesFor(b, key)
  {
    if a == [] {
      assert a + b == b;
    } else {
      ValuesForAppend(a[1..], b, key);
      assert (a + b)[1..] == a[1..] + b;
      Assoc(if KeyOf(a[0]) == key then [ValueOf(a[0])] else [], ValuesFor(a[1..], key), ValuesFor(b, key));
    }
  }

  lemma {:induction false} ValuesForNone(lines: seq<string>, key: string)
    ensures key in KeysOf(lines) <==> ValuesFor(lines, key) != []
  {
    if lines != [] {
      ValuesForNone(lines[1..], key);
      assert key in KeysOf(lines) <==> key == KeyOf(lines[0]) || key in KeysOf(lines[1..]) by {
        assert forall i :: 0 <= i < |lines[1..]| ==> lines[1..][i] == lines[i + 1];
        if key in KeysOf(lines) && key != KeyOf(lines[0]) {
          var i :| 0 <= i < |lines| && key == KeyOf(lines[i]);
          assert lines[1..][i - 1] == lines[i];
        }
      }
    }
  }

  lemma KeysSnoc(lines: seq<string>, line: string)
    ensures KeysOf(lines + [line]) == KeysOf(lines) + {KeyOf(line)}
  {
    var all := lines + [line];
    assert all[|lines|] == line;
    assert forall i :: 0 <= i < |lines| ==> all[i] == lines[i];
  }

  lemma ValuesSnoc(lines: seq<string>, line: string, key: string)
    ensures ValuesFor(lines + [line], key)
         == ValuesFor(lines, key) + if KeyOf(line) == key then [ValueOf(line)] else []
  {
    ValuesForAppend(lines, [line], key);
    assert [line][1..] == [];
  }

  /** One step of the parsing loop. */
  function Added(headers: HeaderMap, line: string): HeaderMap {
    var key := KeyOf(line);
    headers[key := (if key in headers then headers[key] else []) + [ValueOf(line)]]
  }

  lemma ParsedNone()
    ensures Parsed([]) == map[]
  {
  }

  lemma ParsedSnoc(lines: seq<string>, line: string)
    ensures Parsed(lines + [line]) == Added(Parsed(lines), line)
  {
    var all, before := Parsed(lines + [line]), Parsed(lines);
    KeysSnoc(lines, line);
    ValuesForNone(lines, KeyOf(line));
    hide KeyOf, ValueOf, KeysOf, ValuesFor;
    assert all.Keys == Added(before, line).Keys;
    forall key | key in all ensures all[key] == Added(before, line)[key] {
      ValuesSnoc(lines, line, key);
    }
  }

  /** The loop of parseHeaders: fills a map of lists, one line at a time. */
  method ParseLines(lines: seq<string>) returns (headers: HeaderMap)
    ensures headers == Parsed(lines)
  {
    ParsedNone();
    hide Parsed, KeyOf, ValueOf;
    headers := map[];
    for i := 0 to |lines|
      invariant headers == Parsed(lines[..i])
    {
      var key, value := KeyOf(lines[i]), ValueOf(lines[i]);
      assert lines[..i + 1] == lines[..i] + [lines[i]];
      ParsedSnoc(lines[..i], lines[i]);
      headers := headers[key := (if key in headers then headers[key] else []) + [value]];
    }
    assert lines[..|lines|] == lines;
  }

  /** None stands for the GServIOException of a connection that breaks inside the block. */
  method ParseHeaders(ins: Socket) returns (headers: Option<HeaderMap>)
    modifies ins`rest, ins`failed
    ensures ins.rest == AfterBlock(old(ins.rest))
    ensures headers == if ins.broken && !Complete(old(ins.rest)) then None else Some(Parsed(BlockLines(old(ins.rest))))
  {
    var lines := ReadLines(ins);
    if ins.failed {
      return None;
    }
    var parsed := ParseLines(lines);
    headers := Some(parsed);
  }

  /** `headers[key]?.getAt(0)` */
  function First(headers: HeaderMap, key: string): Option<string> {
    if key in headers && headers[key] != [] then Some(headers[key][0]) else None
  }

  // ----- formatting -----

  /** An entry of an insertion-ordered header map. */
  datatype Entry = Entry(key: string, values: seq<string>)

  function HeaderLine(key: string, value: string): string {
    key + ": " + value
  }

  function EntryLines(key: string, values: seq<string>): (lines: seq<string>)
    ensures |lines| == |values|
  {
    seq(|values|, i requires 0 <= i < |values| => HeaderLine(key, values[i]))
  }

  function FormatLines(entries: seq<Entry>): seq<string> {
    if entries == [] then []
    else (if entries[0].key == "" then [] else EntryLines(entries[0].key, entries[0].values))
         + FormatLines(entries[1..])
  }

  function Terminated(lines: seq<string>): string {
    if lines == [] then "" else lines[0] + [LF] + Terminated(lines[1..])
  }

  /** The bytes of a header block and its body. */
  function Formatted(entries: seq<Entry>, body: string): string {
    Terminated(FormatLines(entries)) + [LF] + body
  }

  lemma {:induction false} TerminatedAppend(a: seq<string>, b: seq<string>)
    ensures Terminated(a + b) == Terminated(a) + Terminated(b)
  {
    if a == [] {
      assert a + b == b;
    } else {
      TerminatedAppend(a[1..], b);
      assert (a + b)[1..] == a[1..] + b;
      Assoc(a[0] + [LF], Terminated(a[1..]), Terminated(b));
    }
  }

  lemma TerminatedSnoc(a: seq<string>, line: string)
    ensures Terminated(a + [line]) == Terminated(a) + line + [LF]
  {
    TerminatedAppend(a, [line]);
    assert Terminated([line]) == line + [LF] by {
      assert [line][1..] == [];
    }
  }

  lemma {:induction false} FormatLinesAppend(a: seq<Entry>, b: seq<Entry>)
    ensures FormatLines(a + b) == FormatLines(a) + FormatLines(b)
  {
    if a == [] {
      assert a + b == b;
    } else {
      FormatLinesAppend(a[1..], b);
      assert (a + b)[1..] == a[1..] + b;
      hide EntryLines;
      Assoc(if a[0].key == "" then [] else EntryLines(a[0].key, a[0].values), FormatLines(a[1..]), FormatLines(b));
    }
  }

  lemma FormatLinesSnoc(entries: seq<Entry>, n: nat)
    requires n < |entries|
    ensures FormatLines(entries[..n + 1])
         == FormatLines(entries[..n])
            + if entries[n].key == "" then [] else EntryLines(entries[n].key, entries[n].values)
  {
    assert entries[..n + 1] == entries[..n] + [entries[n]];
    FormatLinesAppend(entries[..n], [entries[n]]);
    assert [entries[n]][1..] == [];
  }

  lemma EntryLineAt(key: string, values: seq<string>, i: nat)
    requires i < |values|
    ensures EntryLines(key, values)[i] == HeaderLine(key, values[i]) == key + ": " + values[i]
  {
  }

  lemma EntryLinesSnoc(key: string, values: seq<string>, value: string)
    ensures EntryLines(key, values + [value]) == EntryLines(key, values) + [HeaderLine(key, value)]
  {
  }

  /** The inner loop of formatAsHeader: one line for each value of a key. */
  method FormatEntryLines(before: string, e: Entry, ghost lines: seq<string>) returns (text: string)
    requires before == Terminated(lines)
    ensures text == Terminated(lines + EntryLines(e.key, e.values))
  {
    ghost var added := EntryLines(e.key, e.values);
    hide EntryLines, Terminated;
    text := before;
    assert lines + added[..0] == lines;
    for i := 0 to |e.values|
      invariant text == Terminated(lines + added[..i])
    {
      TerminatedSnoc(lines + added[..i], added[i]);
      assert lines + added[..i + 1] == (lines + added[..i]) + [added[i]];
      EntryLineAt(e.key, e.values, i);
      text := text + (e.key + ": " + e.values[i]) + [LF];
    }
    assert added[..|e.values|] == added;
  }

  method FormatAsHeader(entries: seq<Entry>, body: string) returns (text: string)
    ensures text == Formatted(entries, body)
  {
    text := "";
    for n := 0 to |entries|
      invariant text == Terminated(FormatLines(entries[..n]))
    {
      var e := entries[n];
      ghost var lines := FormatLines(entries[..n]);
      FormatLinesSnoc(entries, n);
      hide FormatLines, EntryLines, Terminated;
      if e.key != "" {
        text := FormatEntryLines(text, e, lines);
      } else {
        assert lines + [] == lines;
      }
    }
    assert entries[..|entries|] == entries;
    text := text + [LF];
    if body != "" {
      text := text + body;
    }
  }

  // ----- formatting and parsing undo each other -----

  /** A block of non-empty lines reads back line by line, up to exactly the first body byte. */
  lemma {:induction false} BlockRoundTrip(lines: seq<string>, body: string)
    requires forall i :: 0 <= i < |lines| ==> lines[i] != "" && LF !in lines[i]
    ensures BlockLines(Terminated(lines) + [LF] + body) == lines
    ensures AfterBlock(Terminated(lines) + [LF] + body) == body
  {
    var s := Terminated(lines) + [LF] + body;
    if lines == [] {
      assert s == [LF] + body;
      assert IndexOf(s, LF) == 0;
    } else {
      var t := Terminated(lines[1..]) + [LF] + body;
      LineRoundTrip(lines[0], t);
      assert s == lines[0] + [LF] + t;
      BlockRoundTrip(lines[1..], body);
    }
  }

  lemma LineRoundTrip(line: string, t: string)
    requires LF !in line
    ensures LineOf(line + [LF] + t) == line && AfterLine(line + [LF] + t) == t
  {
    var s := line + [LF] + t;
    assert s[|line|] == LF;
    assert forall j :: 0 <= j < |line| ==> s[j] == line[j];
    assert IndexOf(s, LF) == |line|;
  }

  predicate GoodKey(key: string) {
    key != "" && ':' !in key && LF !in key
  }

  ghost predicate GoodEntries(entries: seq<Entry>) {
    && (forall i :: 0 <= i < |entries| ==> GoodKey(entries[i].key))
    && (forall i, j :: 0 <= i < |entries| && 0 <= j < |entries[i].values| ==> LF !in entries[i].values[j])
    && (forall i, j :: 0 <= i < j < |entries| ==> entries[i].key != entries[j].key)
  }

  function Trims(values: seq<string>): (r: seq<string>)
    ensures |r| == |values|
  {
    seq(|values|, i requires 0 <= i < |values| => Trim(values[i]))
  }

  /** What the entries mean as a map: the trimmed values of every key that has any. */
  function MapOf(entries: seq<Entry>): HeaderMap {
    if entries == [] then map[]
    else
      var rest := MapOf(entries[1..]);
      if entries[0].values == [] then rest else rest[entries[0].key := Trims(entries[0].values)]
  }

  lemma HeaderLineParses(key: string, value: string)
    requires GoodKey(key)
    ensures KeyOf(HeaderLine(key, value)) == key && ValueOf(HeaderLine(key, value)) == Trim(value)
  {
    var line := HeaderLine(key, value);
    assert line[|key|] == ':';
    assert forall j :: 0 <= j < |key| ==> line[j] == key[j];
    assert IndexOf(line, ':') == |key|;
    assert line[|key| + 1..] == " " + value;
    TrimAfterSpace(value);
  }

  /** A header value between blanks is read as what stands between them. */
  lemma PaddedValueRead(key: string, a: string, t: string, b: string, body: string)
    requires GoodKey(key) && AllBlank(a) && AllBlank(b) && Trimmed(t) && LF !in a + t + b
    ensures var text := Formatted([Entry(key, [a + t + b])], body);
            Parsed(BlockLines(text)) == map[key := [t]] && AfterBlock(text) == body
  {
    var entries := [Entry(key, [a + t + b])];
    assert GoodEntries(entries) by {
      assert forall j :: 0 <= j < 1 ==> LF !in [a + t + b][j];
    }
    HeaderRoundTrip(entries, body);
    TrimTakesBlanks(a, t, b);
    assert entries[1..] == [];
    assert Trims([a + t + b]) == [t];
    hide Trim, Parsed, BlockLines, AfterBlock, Formatted;
    assert MapOf(entries) == map[key := [t]];
  }

  /** A line without ':' is a key with an empty value. */
  lemma LoneKeyParses(line: string)
    requires ':' !in line
    ensures KeyOf(line) == line && ValueOf(line) == ""
  {
    assert IndexOf(line, ':') == |line|;
    assert line[..|line|] == line;
  }

  /** An entry without a key is not written. */
  lemma NoKeyNoLines(values: seq<string>, entries: seq<Entry>, body: string)
    ensures Formatted([Entry("", values)] + entries, body) == Formatted(entries, body)
  {
    assert ([Entry("", values)] + entries)[1..] == entries;
    assert [] + FormatLines(entries) == FormatLines(entries);
  }

  lemma {:induction false} EntryValues(key: string, values: seq<string>, wanted: string)
    requires GoodKey(key)
    ensures ValuesFor(EntryLines(key, values), wanted) == if key == wanted then Trims(values) else []
  {
    if values != [] {
      var lines := EntryLines(key, values);
      HeaderLineParses(key, values[0]);
      EntryLineAt(key, values, 0);
      assert lines[1..] == EntryLines(key, values[1..]);
      EntryValues(key, values[1..], wanted);
      hide HeaderLine, KeyOf, ValueOf, EntryLines;
      assert Trims(values) == [Trim(values[0])] + Trims(values[1..]);
    }
  }

  lemma {:induction false} EntriesValues(entries: seq<Entry>, wanted: string)
    requires GoodEntries(entries)
    ensures ValuesFor(FormatLines(entries), wanted)
         == if wanted in MapOf(entries) then MapOf(entries)[wanted] else []
    ensures wanted in MapOf(entries) ==>
              MapOf(entries)[wanted] != [] && exists i :: 0 <= i < |entries| && entries[i].key == wanted
  {
    if entries != [] {
      var e, rest := entries[0], entries[1..];
      EntriesValues(rest, wanted);
      EntryValues(e.key, e.values, wanted);
      ValuesForAppend(EntryLines(e.key, e.values), FormatLines(rest), wanted);
      if wanted in MapOf(rest) {
        var i :| 0 <= i < |rest| && rest[i].key == wanted;
        assert entries[i + 1].key == wanted;
      }
      if wanted == e.key {
        assert entries[0].key == wanted;
      }
    }
  }

  lemma {:induction false} FormatLinesAreLines(entries: seq<Entry>)
    requires GoodEntries(entries)
    ensures forall i :: 0 <= i < |FormatLines(entries)| ==>
              FormatLines(entries)[i] != "" && LF !in FormatLines(entries)[i]
  {
    if entries != [] {
      FormatLinesAreLines(entries[1..]);
      var e := entries[0];
      forall i | 0 <= i < |e.values|
        ensures HeaderLine(e.key, e.values[i]) != "" && LF !in HeaderLine(e.key, e.values[i])
      {
        assert LF !in entries[0].values[i];
        assert LF !in ": ";
      }
    }
  }

  /**
   parseHeaders undoes formatAsHeader: the parsed map holds every key with its values
   in order, trimmed, and the stream is left at the first byte of the body.
   */
  lemma HeaderRoundTrip(entries: seq<Entry>, body: string)
    requires GoodEntries(entries)
    ensures Parsed(BlockLines(Formatted(entries, body))) == MapOf(entries)
    ensures AfterBlock(Formatted(entries, body)) == body
  {
    var lines := FormatLines(entries);
    FormatLinesAreLines(entries);
    BlockRoundTrip(lines, body);
    hide MapOf, ValuesFor, KeysOf, GoodEntries, BlockLines, AfterBlock, FormatLines;
    var values := MapOf(entries);
    forall key
      ensures key in KeysOf(lines) <==> key in values
      ensures key in values ==> ValuesFor(lines, key) == values[key]
    {
      EntriesValues(entries, key);
      ValuesForNone(lines, key);
    }
    assert Parsed(lines) == values;
  }

  lemma {:induction false} MapOfAt(entries: seq<Entry>, i: nat)
    requires GoodEntries(entries) && i < |entries|
    ensures entries[i].key in MapOf(entries) <==> entries[i].values != []
    ensures entries[i].values != [] ==> MapOf(entries)[entries[i].key] == Trims(entries[i].values)
  {
    if i == 0 {
      EntriesValues(entries[1..], entries[0].key);
    } else {
      assert entries[1..][i - 1] == entries[i];
      MapOfAt(entries[1..], i - 1);
    }
  }

  /** The values come back untouched exactly when none has outer white space. */
  lemma ValuesExactIff(entries: seq<Entry>, i: nat)
    requires GoodEntries(entries) && i < |entries| && entries[i].values != []
    ensures var parsed := Parsed(BlockLines(Formatted(entries, "")));
            && entries[i].key in parsed
            && (parsed[entries[i].key] == entries[i].values
                <==> forall j :: 0 <= j < |entries[i].values| ==> Trimmed(entries[i].values[j]))
  {
    HeaderRoundTrip(entries, "");
    MapOfAt(entries, i);
    var values := entries[i].values;
    forall j | 0 <= j < |values| ensures Trims(values)[j] == values[j] <==> Trimmed(values[j]) {
      TrimFixpoint(values[j]);
    }
    if Trims(values) == values {
      forall j | 0 <= j < |values| ensures Trimmed(values[j]) {
        assert Trims(values)[j] == values[j];
      }
    }
  }
}
