/**
 The invocation request: send_header builds it in C, readInvocationRequest parses it in
 Groovy, and the two undo each other.
 */
module Request {
  import opened Text
  import opened Sockets
  import opened Headers
  import opened Buf
  import opened Options
  import opened EnvHeaders
  import Base64

  // ----- what the client sends -----

  /** The argv entries that scan_options left, in order. */
  function Survivors(slots: seq<Option<string>>): seq<string> {
    if slots == [] then []
    else (if slots[0].Some? then [slots[0].value] else []) + Survivors(slots[1..])
  }

  ghost predicate Arguments(args: seq<string>) {
    forall i :: 0 <= i < |args| ==> Bytes(args[i])
  }

  ghost predicate CStrings(slots: seq<Option<string>>) {
    forall i :: 0 <= i < |slots| && slots[i].Some? ==> CString(slots[i].value)
  }

  function EncodedArgs(args: seq<string>): (r: seq<string>)
    requires Arguments(args)
    ensures |r| == |args|
  {
    seq(|args|, i requires 0 <= i < |args| => Base64.Encoded(args[i]))
  }

  function Listed(value: Option<string>): seq<string> {
    if value.Some? then [value.value] else []
  }

  function RequestEntries(cwd: string, token: string, args: seq<string>, envVars: seq<string>,
                          classpath: Option<string>)
    : seq<Entry>
    requires Arguments(args)
  {
    [Entry("Cwd", [cwd]), Entry("Auth", [token]), Entry("Arg", EncodedArgs(args)),
     Entry("Env", envVars), Entry("Cp", Listed(classpath))]
  }

  /** The request as a header block with no body. */
  function RequestText(cwd: string, token: string, args: seq<string>, envVars: seq<string>, classpath: Option<string>)
    : string
    requires Arguments(args)
  {
    Formatted(RequestEntries(cwd, token, args, envVars, classpath), "")
  }

  function RequestLines(cwd: string, token: string, args: seq<string>, envVars: seq<string>, classpath: Option<string>)
    : seq<string>
    requires Arguments(args)
  {
    HeadLines(cwd, token, args) + EntryLines("Env", envVars) + EntryLines("Cp", Listed(classpath))
  }

  function HeadLines(cwd: string, token: string, args: seq<string>): seq<string>
    requires Arguments(args)
  {
    [HeaderLine("Cwd", cwd)] + [HeaderLine("Auth", token)] + EntryLines("Arg", EncodedArgs(args))
  }

  lemma FormatEntry(e: Entry, rest: seq<Entry>)
    requires e.key != ""
    ensures FormatLines([e] + rest) == EntryLines(e.key, e.values) + FormatLines(rest)
  {
    assert ([e] + rest)[1..] == rest;
  }

  lemma OneLine(key: string, value: string)
    ensures EntryLines(key, [value]) == [HeaderLine(key, value)]
  {
  }

  lemma RequestTextIs(cwd: string, token: string, args: seq<string>, envVars: seq<string>, classpath: Option<string>)
    requires Arguments(args)
    ensures RequestText(cwd, token, args, envVars, classpath)
         == Terminated(RequestLines(cwd, token, args, envVars, classpath)) + [LF]
  {
    hide EntryLines, HeaderLine, EncodedArgs, Terminated;
    var a, b, c := Entry("Cwd", [cwd]), Entry("Auth", [token]), Entry("Arg", EncodedArgs(args));
    var d, e := Entry("Env", envVars), Entry("Cp", Listed(classpath));
    OneLine("Cwd", cwd);
    OneLine("Auth", token);
    assert RequestEntries(cwd, token, args, envVars, classpath) == [a] + ([b] + ([c] + ([d] + ([e] + []))));
    FormatEntry(a, [b] + ([c] + ([d] + ([e] + []))));
    FormatEntry(b, [c] + ([d] + ([e] + [])));
    FormatEntry(c, [d] + ([e] + []));
    FormatEntry(d, [e] + []);
    FormatEntry(e, []);
    assert FormatLines([]) == [];
    hide FormatLines;
    assert FormatLines(RequestEntries(cwd, token, args, envVars, classpath))
        == RequestLines(cwd, token, args, envVars, classpath);
  }

  /** The request on the wire, letter by letter, here with one value for each header. */
  lemma RequestLetters(cwd: string, token: string, arg: string, env: string, classpath: string)
    requires Bytes(arg)
    ensures RequestText(cwd, token, [arg], [env], Some(classpath))
         == "Cwd: " + cwd + "\n" + ("Auth: " + token + "\n" + ("Arg: " + Base64.Encoded(arg) + "\n"
            + ("Env: " + env + "\n" + ("Cp: " + classpath + "\n" + "\n"))))
  {
    hide Base64.Encoded, RequestText, EntryLines, HeaderLine, Terminated, RequestLines;
    var a, b, c := HeaderLine("Cwd", cwd), HeaderLine("Auth", token), HeaderLine("Arg", Base64.Encoded(arg));
    var d, e := HeaderLine("Env", env), HeaderLine("Cp", classpath);
    RequestTextIs(cwd, token, [arg], [env], Some(classpath));
    SingleLines(cwd, token, arg, env, classpath);
    FiveLines(a, b, c, d, e);
    LineLetters("Cwd", cwd);
    LineLetters("Auth", token);
    LineLetters("Arg", Base64.Encoded(arg));
    LineLetters("Env", env);
    LineLetters("Cp", classpath);
    assert ("Cwd" + ": ") == "Cwd: " && ("Auth" + ": ") == "Auth: " && ("Arg" + ": ") == "Arg: ";
    assert ("Env" + ": ") == "Env: " && ("Cp" + ": ") == "Cp: " && [LF] == "\n";
  }

  lemma SingleLines(cwd: string, token: string, arg: string, env: string, classpath: string)
    requires Bytes(arg)
    ensures RequestLines(cwd, token, [arg], [env], Some(classpath))
         == [HeaderLine("Cwd", cwd), HeaderLine("Auth", token), HeaderLine("Arg", Base64.Encoded(arg)),
             HeaderLine("Env", env), HeaderLine("Cp", classpath)]
  {
    hide Base64.Encoded, EntryLines, HeaderLine;
    assert EncodedArgs([arg]) == [Base64.Encoded(arg)];
    OneLine("Arg", Base64.Encoded(arg));
    OneLine("Env", env);
    OneLine("Cp", classpath);
  }

  lemma TerminatedFirst(line: string, lines: seq<string>, after: string)
    ensures Terminated([line] + lines) + after == line + [LF] + (Terminated(lines) + after)
  {
    assert ([line] + lines)[1..] == lines;
    Assoc(line + [LF], Terminated(lines), after);
  }

  lemma FiveLines(a: string, b: string, c: string, d: string, e: string)
    ensures Terminated([a, b, c, d, e]) + [LF]
         == a + [LF] + (b + [LF] + (c + [LF] + (d + [LF] + (e + [LF] + [LF]))))
  {
    assert [a, b, c, d, e] == [a] + ([b] + ([c] + ([d] + ([e] + []))));
    assert Terminated([]) + [LF] == [LF];
    hide Terminated;
    TerminatedFirst(a, [b] + ([c] + ([d] + ([e] + []))), [LF]);
    TerminatedFirst(b, [c] + ([d] + ([e] + [])), [LF]);
    TerminatedFirst(c, [d] + ([e] + []), [LF]);
    TerminatedFirst(d, [e] + [], [LF]);
    TerminatedFirst(e, [], [LF]);
  }

  lemma LineLetters(key: string, value: string)
    ensures HeaderLine(key, value) == key + ": " + value
  {
  }

  lemma {:induction false} SurvivorsSnoc(slots: seq<Option<string>>, slot: Option<string>)
    ensures Survivors(slots + [slot]) == Survivors(slots) + if slot.Some? then [slot.value] else []
  {
    if slots == [] {
      assert [] + [slot] == [slot] && [slot][1..] == [];
    } else {
      SurvivorsSnoc(slots[1..], slot);
      assert (slots + [slot])[1..] == slots[1..] + [slot];
      Assoc(if slots[0].Some? then [slots[0].value] else [], Survivors(slots[1..]),
            if slot.Some? then [slot.value] else []);
    }
  }

  // ----- send_header -----

  lemma ReadsBack(arg: string)
    requires CString(arg)
    ensures (arg + [NUL])[|arg|] == NUL && UpToNul(arg + [NUL]) == arg
  {
    assert (arg + [NUL])[|arg|] == NUL;
    assert IndexOf(arg + [NUL], NUL) == |arg|;
  }

  /** base64_encode of an argv entry, as send_header calls it. */
  method EncodeArgument(arg: string) returns (encoded: string)
    requires Bytes(arg) && CString(arg)
    ensures encoded == Base64.Encoded(arg)
  {
    hide Base64.Encoded, UpToNul;
    var original := new char[|arg| + 1](i => if 0 <= i < |arg| then arg[i] else NUL);
    var work := new char[|arg| * 3 / 2 + 5];
    assert original[..] == arg + [NUL];
    ReadsBack(arg);
    var n := Base64.Encode(work, original);
    encoded := work[..n - 1];
    assert work[..n][..n - 1] == encoded;
  }

  lemma LineIsC(key: string, value: string)
    requires CString(key) && CString(value)
    ensures CString(HeaderLine(key, value) + [LF])
  {
  }

  /** Appends one header line to the request under construction. */
  method PrintLine(readBuf: Buffer, key: string, value: string, ghost lines: seq<string>)
    requires readBuf.Valid() && CString(key) && CString(value)
    requires readBuf.Abs().text == Terminated(lines)
    modifies readBuf, readBuf.buffer
    ensures readBuf.Valid() && (readBuf.buffer == old(readBuf.buffer) || fresh(readBuf.buffer))
    ensures readBuf.Abs().text == Terminated(lines + [HeaderLine(key, value)])
  {
    LineIsC(key, value);
    TerminatedSnoc(lines, HeaderLine(key, value));
    hide HeaderLine, Terminated, GrowTo;
    readBuf.Printf(HeaderLine(key, value) + [LF]);
  }

  /** The lines that the argv entries before `i` make. */
  function ArgLines(slots: seq<Option<string>>, i: nat): seq<string>
    requires i <= |slots| && Arguments(Survivors(slots[..i]))
  {
    EntryLines("Arg", EncodedArgs(Survivors(slots[..i])))
  }

  lemma ArgLinesNext(slots: seq<Option<string>>, i: nat)
    requires i < |slots| && Arguments(Survivors(slots))
    ensures Arguments(Survivors(slots[..i])) && Arguments(Survivors(slots[..i + 1]))
    ensures slots[i].None? ==> ArgLines(slots, i + 1) == ArgLines(slots, i)
    ensures slots[i].Some? ==>
              && Bytes(slots[i].value)
              && ArgLines(slots, i + 1)
                 == ArgLines(slots, i) + [HeaderLine("Arg", Base64.Encoded(slots[i].value))]
  {
    hide Survivors, EntryLines, HeaderLine, EncodedArgs, Arguments;
    SurvivorsPrefix(slots, i);
    SurvivorsPrefix(slots, i + 1);
    assert slots[..i + 1] == slots[..i] + [slots[i]];
    SurvivorsSnoc(slots[..i], slots[i]);
    var before := Survivors(slots[..i]);
    if slots[i].Some? {
      EncodedSnoc(before, slots[i].value);
      EntryLinesSnoc("Arg", EncodedArgs(before), Base64.Encoded(slots[i].value));
    } else {
      assert before + [] == before;
    }
  }

  lemma EncodedSnoc(args: seq<string>, arg: string)
    requires Arguments(args + [arg])
    ensures Arguments(args) && Bytes(arg)
    ensures EncodedArgs(args + [arg]) == EncodedArgs(args) + [Base64.Encoded(arg)]
  {
    var all := args + [arg];
    assert all[|args|] == arg;
    assert forall j :: 0 <= j < |args| ==> all[j] == args[j];
    hide Base64.Encoded;
  }

  lemma SurvivorsPrefix(slots: seq<Option<string>>, i: nat)
    requires i <= |slots| && Arguments(Survivors(slots))
    ensures Arguments(Survivors(slots[..i]))
  {
    SurvivorsAppend(slots[..i], slots[i..]);
    assert slots[..i] + slots[i..] == slots;
    var first, all := Survivors(slots[..i]), Survivors(slots);
    assert forall j :: 0 <= j < |first| ==> first[j] == all[j];
  }

  lemma {:induction false} SurvivorsAppend(a: seq<Option<string>>, b: seq<Option<string>>)
    ensures Survivors(a + b) == Survivors(a) + Survivors(b)
  {
    if a == [] {
      assert a + b == b;
    } else {
      SurvivorsAppend(a[1..], b);
      assert (a + b)[1..] == a[1..] + b;
      Assoc(if a[0].Some? then [a[0].value] else [], Survivors(a[1..]), Survivors(b));
    }
  }

  /** The loop of send_header over argv: the survivors, encoded. `slots` are the entries after the program. */
  method PrintArguments(readBuf: Buffer, slots: seq<Option<string>>, ghost lines: seq<string>)
    requires readBuf.Valid() && readBuf.Abs().text == Terminated(lines)
    requires Arguments(Survivors(slots)) && CStrings(slots)
    modifies readBuf, readBuf.buffer
    ensures readBuf.Valid() && (readBuf.buffer == old(readBuf.buffer) || fresh(readBuf.buffer))
    ensures readBuf.Abs().text == Terminated(lines + EntryLines("Arg", EncodedArgs(Survivors(slots))))
  {
    assert lines + [] == lines;
    SurvivorsPrefix(slots, 0);
    assert ArgLines(slots, 0) == [];
    hide ArgLines, Terminated, Survivors, GrowTo, Base64.Encoded, HeaderLine;
    for i := 0 to |slots|
      invariant readBuf.Valid() && (readBuf.buffer == old(readBuf.buffer) || fresh(readBuf.buffer))
      invariant Arguments(Survivors(slots[..i]))
      invariant readBuf.Abs().text == Terminated(lines + ArgLines(slots, i))
    {
      ArgLinesNext(slots, i);
      if slots[i].Some? {
        var encoded := EncodeArgument(slots[i].value);
        Base64.EncodedIsClean(slots[i].value);
        Assoc(lines, ArgLines(slots, i), [HeaderLine("Arg", encoded)]);
        PrintLine(readBuf, "Arg", encoded, lines + ArgLines(slots, i));
      }
    }
    ArgLinesAll(slots);
  }

  lemma ArgLinesAll(slots: seq<Option<string>>)
    requires Arguments(Survivors(slots[..|slots|]))
    ensures Arguments(Survivors(slots))
    ensures ArgLines(slots, |slots|) == EntryLines("Arg", EncodedArgs(Survivors(slots)))
  {
    assert slots[..|slots|] == slots;
  }

  /** What send_header writes to the socket; None when the process ends at a bad environment entry. */
  ghost function SentRequest(settings: Settings, slots: seq<Option<string>>, cwd: string, token: string,
                             env: seq<string>, classpath: Option<string>): Option<string>
    requires Arguments(Survivors(slots))
  {
    match Selected(settings.envAll, settings.includeMasks, settings.excludeMasks, env)
    case None => None
    case Some(chosen) => Some(RequestText(cwd, token, Survivors(slots), chosen, classpath))
  }

  /** send_header; argv[0] is the program. */
  method SendHeader(option: ClientOption, argv: array<Option<string>>, cwd: string, authtoken: string,
                    environ: seq<array<char>>, classpath: Option<string>, ghost raw: seq<string>)
    returns (sent: Option<string>)
    requires option.Valid() && Holds(environ, raw)
    requires argv.Length >= 1 && Arguments(Survivors(argv[1..])) && CStrings(argv[1..])
    requires CString(cwd) && CString(authtoken) && (classpath.Some? ==> CString(classpath.value))
    modifies environ
    ensures Holds(environ, raw)
    ensures sent == SentRequest(option.Abs(), argv[1..], cwd, authtoken, Cut(raw), classpath)
  {
    hide Terminated, EntryLines, HeaderLine, HeadLines, EncodedArgs, Survivors, Selected, GrowTo, Cut, Holds;
    hide RequestText, Arguments, CStrings, Passes, Listed;
    var readBuf := new Buffer(512);
    PrintHead(readBuf, argv[1..], cwd, authtoken);
    ghost var lines := HeadLines(cwd, authtoken, Survivors(argv[1..]));
    var ok := MakeEnvHeaders(readBuf, environ, option, raw);
    if !ok {
      return None;
    }
    ghost var chosen := Selected(option.envAll, MaskList(option.envIncludeMask[..]),
                                 MaskList(option.envExcludeMask[..]), Cut(raw)).value;
    TerminatedAppend(lines, EntryLines("Env", chosen));
    sent := PrintTail(readBuf, classpath, lines + EntryLines("Env", chosen));
    RequestTextIs(cwd, authtoken, Survivors(argv[1..]), chosen, classpath);
  }

  /** The headers before those of the environment. */
  method PrintHead(readBuf: Buffer, slots: seq<Option<string>>, cwd: string, authtoken: string)
    requires readBuf.Valid() && readBuf.size == 0
    requires Arguments(Survivors(slots)) && CStrings(slots) && CString(cwd) && CString(authtoken)
    modifies readBuf, readBuf.buffer
    ensures readBuf.Valid() && (readBuf.buffer == old(readBuf.buffer) || fresh(readBuf.buffer))
    ensures readBuf.Abs().text == Terminated(HeadLines(cwd, authtoken, Survivors(slots)))
  {
    assert readBuf.Abs().text == Terminated([]);
    hide Terminated, EntryLines, HeaderLine, EncodedArgs, Survivors, GrowTo, Arguments, CStrings;
    assert [] + [HeaderLine("Cwd", cwd)] == [HeaderLine("Cwd", cwd)];
    PrintLine(readBuf, "Cwd", cwd, []);
    PrintLine(readBuf, "Auth", authtoken, [HeaderLine("Cwd", cwd)]);
    PrintArguments(readBuf, slots, [HeaderLine("Cwd", cwd)] + [HeaderLine("Auth", authtoken)]);
  }

  /** The headers after those of the environment, and the bytes written to the socket. */
  method PrintTail(readBuf: Buffer, classpath: Option<string>, ghost lines: seq<string>) returns (sent: Option<string>)
    requires readBuf.Valid() && readBuf.Abs().text == Terminated(lines)
    requires classpath.Some? ==> CString(classpath.value)
    modifies readBuf, readBuf.buffer
    ensures sent == Some(Terminated(lines + EntryLines("Cp", Listed(classpath))) + [LF])
  {
    ClasspathLines(lines, classpath);
    hide Terminated, EntryLines, HeaderLine, GrowTo, Listed;
    if classpath.Some? {
      PrintLine(readBuf, "Cp", classpath.value, lines);
    }
    sent := FinishHeader(readBuf, Terminated(lines + EntryLines("Cp", Listed(classpath))));
  }

  /** The closing line feed, and the bytes written: the buffer without its terminator. */
  method FinishHeader(readBuf: Buffer, ghost text: string) returns (sent: Option<string>)
    requires readBuf.Valid() && readBuf.Abs().text == text
    modifies readBuf, readBuf.buffer
    ensures sent == Some(text + [LF])
  {
    readBuf.Printf([LF]);
    readBuf.size := readBuf.size - 1;
    sent := Some(readBuf.buffer[..readBuf.size]);
  }

  lemma ClasspathLines(lines: seq<string>, classpath: Option<string>)
    ensures lines + EntryLines("Cp", Listed(classpath))
         == if classpath.Some? then lines + [HeaderLine("Cp", classpath.value)] else lines
  {
  }

  // ----- what the server reads -----

  datatype InvocationRequest = InvocationRequest(
    cwd: Option<string>, classpath: Option<string>, args: seq<string>, clientAuthToken: Option<string>,
    envVars: Option<seq<string>>, protocol: Option<string>, command: Option<string>)

  datatype Failure = InvalidRequestHeader | InvalidAuthToken | BrokenConnection

  datatype Reading = Received(request: InvocationRequest) | Rejected(failure: Failure)

  /** decodeArgs: None when some argument is not Base64. */
  function DecodedArgs(encoded: seq<string>): Option<seq<string>> {
    if encoded == [] then Some([])
    else
      match (Base64.Decoded(encoded[0]), DecodedArgs(encoded[1..]))
      case (Some(arg), Some(rest)) => Some([arg] + rest)
      case _ => None
  }

  /** InvocationRequest.check */
  predicate Authentic(token: Option<string>, serverToken: string) {
    token.Some? && token.value != "" && token.value == serverToken
  }

  function RequestOf(headers: HeaderMap, serverToken: string): Reading {
    match DecodedArgs(if "Arg" in headers then headers["Arg"] else [])
    case None => Rejected(InvalidRequestHeader)
    case Some(args) =>
      var request := InvocationRequest(
        First(headers, "Cwd"), First(headers, "Cp"), args, First(headers, "Auth"),
        if "Env" in headers then Some(headers["Env"]) else None,
        First(headers, "Protocol"), First(headers, "Cmd"));
      if Authentic(request.clientAuthToken, serverToken) then Received(request) else Rejected(InvalidAuthToken)
  }

  method ReadInvocationRequest(ins: Socket, serverToken: string) returns (reading: Reading)
    modifies ins`rest, ins`failed
    ensures reading == if ins.broken && !Complete(old(ins.rest)) then Rejected(BrokenConnection)
                       else RequestOf(Parsed(BlockLines(old(ins.rest))), serverToken)
    ensures ins.rest == AfterBlock(old(ins.rest))
  {
    var headers := ParseHeaders(ins);
    reading := if headers.None? then Rejected(BrokenConnection) else RequestOf(headers.value, serverToken);
  }

  // ----- the round trip -----

  /** A header value that survives: no line feed, no white space at either end. */
  ghost predicate Clean(s: string) {
    LF !in s && Trimmed(s)
  }

  ghost predicate AllClean(values: seq<string>) {
    forall i :: 0 <= i < |values| ==> Clean(values[i])
  }

  lemma {:induction false} ArgsRoundTrip(args: seq<string>)
    requires Arguments(args)
    ensures DecodedArgs(EncodedArgs(args)) == Some(args)
  {
    hide Base64.Encoded, Base64.Decoded, Bytes;
    if args != [] {
      Base64.RoundTrip(args[0]);
      ArgsRoundTrip(args[1..]);
      assert EncodedArgs(args)[0] == Base64.Encoded(args[0]) && [args[0]] + args[1..] == args;
      assert EncodedArgs(args)[1..] == EncodedArgs(args[1..]);
    }
  }

  lemma EncodedArgsClean(args: seq<string>)
    requires Arguments(args)
    ensures AllClean(EncodedArgs(args))
  {
    forall i | 0 <= i < |args| ensures Clean(EncodedArgs(args)[i]) {
      Base64.EncodedIsClean(args[i]);
    }
  }

  lemma TrimsClean(values: seq<string>)
    requires AllClean(values)
    ensures Trims(values) == values
  {
    forall i | 0 <= i < |values| ensures Trims(values)[i] == values[i] {
      TrimFixpoint(values[i]);
    }
  }

  lemma RequestEntriesGood(cwd: string, token: string, args: seq<string>, envVars: seq<string>,
                           classpath: Option<string>)
    requires Arguments(args) && Clean(cwd) && Clean(token) && AllClean(envVars) && AllClean(Listed(classpath))
    ensures GoodEntries(RequestEntries(cwd, token, args, envVars, classpath))
  {
    EncodedArgsClean(args);
    var entries := RequestEntries(cwd, token, args, envVars, classpath);
    forall i, j | 0 <= i < |entries| && 0 <= j < |entries[i].values| ensures LF !in entries[i].values[j] {
      assert Clean(entries[i].values[j]);
    }
  }

  /** No entry, no header. */
  lemma OtherHeadersAbsent(entries: seq<Entry>, key: string)
    requires GoodEntries(entries) && forall i :: 0 <= i < |entries| ==> entries[i].key != key
    ensures key !in MapOf(entries)
  {
    EntriesValues(entries, key);
  }

  lemma EntryRead(entries: seq<Entry>, i: nat, key: string, values: seq<string>)
    requires GoodEntries(entries) && i < |entries| && entries[i] == Entry(key, values) && AllClean(values)
    ensures key in MapOf(entries) <==> values != []
    ensures values != [] ==> MapOf(entries)[key] == values
    ensures First(MapOf(entries), key) == if values == [] then None else Some(values[0])
  {
    MapOfAt(entries, i);
    TrimsClean(values);
  }

  /** The header map of a request, as the server sees it. */
  lemma RequestMap(cwd: string, token: string, args: seq<string>, envVars: seq<string>, classpath: Option<string>)
    requires Arguments(args) && Clean(cwd) && Clean(token) && AllClean(envVars) && AllClean(Listed(classpath))
    ensures var headers := MapOf(RequestEntries(cwd, token, args, envVars, classpath));
            && First(headers, "Cwd") == Some(cwd) && First(headers, "Auth") == Some(token)
            && First(headers, "Cp") == classpath
            && (if "Arg" in headers then headers["Arg"] else []) == EncodedArgs(args)
            && (if "Env" in headers then Some(headers["Env"]) else None)
               == (if envVars == [] then None else Some(envVars))
            && First(headers, "Protocol") == None && First(headers, "Cmd") == None
  {
    var entries := RequestEntries(cwd, token, args, envVars, classpath);
    RequestEntriesGood(cwd, token, args, envVars, classpath);
    EncodedArgsClean(args);
    hide MapOf, GoodEntries, EncodedArgs, Clean;
    OtherHeadersAbsent(entries, "Protocol");
    OtherHeadersAbsent(entries, "Cmd");
    EntryRead(entries, 0, "Cwd", [cwd]);
    EntryRead(entries, 1, "Auth", [token]);
    EntryRead(entries, 2, "Arg", EncodedArgs(args));
    EntryRead(entries, 3, "Env", envVars);
    EntryRead(entries, 4, "Cp", Listed(classpath));
  }

  /** Parsing a request gives its map, and leaves what follows unread. */
  lemma RequestParsed(cwd: string, token: string, args: seq<string>, envVars: seq<string>, classpath: Option<string>,
                      rest: string)
    requires Arguments(args) && Clean(cwd) && Clean(token) && AllClean(envVars) && AllClean(Listed(classpath))
    ensures var text := RequestText(cwd, token, args, envVars, classpath) + rest;
            && AfterBlock(text) == rest
            && Parsed(BlockLines(text)) == MapOf(RequestEntries(cwd, token, args, envVars, classpath))
  {
    var entries := RequestEntries(cwd, token, args, envVars, classpath);
    RequestEntriesGood(cwd, token, args, envVars, classpath);
    assert RequestText(cwd, token, args, envVars, classpath) + rest == Formatted(entries, rest);
    HeaderRoundTrip(entries, rest);
  }

  /** The request as the server should see it. */
  function RequestSent(cwd: string, token: string, args: seq<string>, envVars: seq<string>, classpath: Option<string>)
    : InvocationRequest
  {
    var sent := if envVars == [] then None else Some(envVars);
    InvocationRequest(Some(cwd), classpath, args, Some(token), sent, None, None)
  }

  /**
   The request round trip. For every argument list of byte strings (empty and multi-line
   ones included) and every clean directory, token, classpath and environment, the server reads back
   exactly those, in order, and stops at the first byte after the request; or it rejects the token.
   */
  lemma RequestRoundTrip(cwd: string, token: string, args: seq<string>, envVars: seq<string>, classpath: Option<string>,
                         serverToken: string, rest: string)
    requires Arguments(args) && Clean(cwd) && Clean(token) && AllClean(envVars) && AllClean(Listed(classpath))
    ensures var text := RequestText(cwd, token, args, envVars, classpath) + rest;
            && AfterBlock(text) == rest
            && RequestOf(Parsed(BlockLines(text)), serverToken)
               == if token != "" && token == serverToken
                  then Received(RequestSent(cwd, token, args, envVars, classpath))
                  else Rejected(InvalidAuthToken)
  {
    RequestParsed(cwd, token, args, envVars, classpath, rest);
    RequestMap(cwd, token, args, envVars, classpath);
    ArgsRoundTrip(args);
    hide MapOf, RequestEntries, RequestText, Parsed, BlockLines, AfterBlock, First, Clean, AllClean, DecodedArgs;
  }

  /** A request with a command, as GroovyClient.ping, shutdown and interrupt write it, arrives as that command. */
  lemma CommandRoundTrip(token: string, cmd: string, rest: string)
    requires Clean(token) && token != "" && Clean(cmd)
    ensures var text := Formatted([Entry("Auth", [token]), Entry("Cmd", [cmd])], rest);
            var reading := RequestOf(Parsed(BlockLines(text)), token);
            && AfterBlock(text) == rest && reading.Received?
            && reading.request.command == Some(cmd) && reading.request.protocol == None
            && reading.request.clientAuthToken == Some(token) && reading.request.args == []
            && reading.request.cwd == None && reading.request.classpath == None && reading.request.envVars == None
  {
    hide Parsed, BlockLines, AfterBlock, Formatted, Clean;
    TwoHeadersRead("Cmd", token, cmd, rest);
    assert "Cmd"[1] != "Cwd"[1] && "Auth"[1] != "Arg"[1] && |"Cp"| == 2 && |"Protocol"| == 8 && "Env"[0] == 'E';
  }

  /** A request of the simple protocol arrives as that. */
  lemma ProtocolRoundTrip(token: string, protocol: string, rest: string)
    requires Clean(token) && token != "" && Clean(protocol)
    ensures var text := Formatted([Entry("Auth", [token]), Entry("Protocol", [protocol])], rest);
            var reading := RequestOf(Parsed(BlockLines(text)), token);
            && AfterBlock(text) == rest && reading.Received?
            && reading.request.protocol == Some(protocol) && reading.request.command == None
  {
    hide Parsed, BlockLines, AfterBlock, Formatted, Clean;
    TwoHeadersRead("Protocol", token, protocol, rest);
    assert |"Protocol"| == 8 && |"Auth"| == 4 && |"Arg"| == |"Cmd"| == |"Cwd"| == |"Env"| == 3 && |"Cp"| == 2;
  }

  lemma TwoHeadersRead(key: string, token: string, value: string, rest: string)
    requires GoodKey(key) && key != "Auth" && Clean(token) && Clean(value)
    ensures var text := Formatted([Entry("Auth", [token]), Entry(key, [value])], rest);
            && AfterBlock(text) == rest && Parsed(BlockLines(text)) == map["Auth" := [token], key := [value]]
  {
    hide Parsed, BlockLines, AfterBlock, Formatted, Trim;
    var a, b := Entry("Auth", [token]), Entry(key, [value]);
    assert GoodEntries([a, b]) by {
      assert forall j :: 0 <= j < 1 ==> LF !in [token][j] && LF !in [value][j];
    }
    HeaderRoundTrip([a, b], rest);
    TrimsClean([token]);
    TrimsClean([value]);
    hide Trims, GoodEntries;
    assert [a, b][1..] == [b] && [b][1..] == [];
    assert MapOf([b]) == map[key := [value]];
  }

  lemma {:induction false} DecodedArgsIff(encoded: seq<string>)
    ensures DecodedArgs(encoded) == None <==> exists i :: 0 <= i < |encoded| && Base64.Decoded(encoded[i]) == None
  {
    hide Base64.Decoded;
    if encoded != [] {
      DecodedArgsIff(encoded[1..]);
      if i :| 0 <= i < |encoded[1..]| && Base64.Decoded(encoded[1..][i]) == None {
        assert encoded[i + 1] == encoded[1..][i];
      }
      if i :| 0 <= i < |encoded| && Base64.Decoded(encoded[i]) == None {
        assert i == 0 || encoded[1..][i - 1] == encoded[i];
      }
    }
  }

  /** A request is rejected for an argument that is not Base64, whatever its token, and else for a wrong token. */
  lemma RejectedIff(lines: seq<string>, serverToken: string)
    ensures var reading := RequestOf(Parsed(lines), serverToken);
            && (reading == Rejected(InvalidRequestHeader)
                <==> exists i :: && 0 <= i < |ValuesFor(lines, "Arg")|
                                 && Base64.Decoded(ValuesFor(lines, "Arg")[i]) == None)
            && (reading.Received? ==>
                  ValuesFor(lines, "Auth") != [] && ValuesFor(lines, "Auth")[0] == serverToken != "")
  {
    ValuesForNone(lines, "Arg");
    ValuesForNone(lines, "Auth");
    DecodedArgsIff(ValuesFor(lines, "Arg"));
    hide Base64.Decoded, ValuesFor, KeysOf, DecodedArgs;
  }

  /** No parsed line holds a line feed. */
  lemma {:induction false} BlockLinesHoldNoLF(text: string)
    ensures forall i :: 0 <= i < |BlockLines(text)| ==> LF !in BlockLines(text)[i]
    decreases |text|
  {
    BlockStep(text);
    if LineOf(text) != "" {
      BlockLinesHoldNoLF(AfterLine(text));
    }
  }

  /** What a header map gives is clean, whatever was sent. */
  lemma {:induction false} ParsedValuesClean(lines: seq<string>, key: string)
    requires forall i :: 0 <= i < |lines| ==> LF !in lines[i]
    ensures AllClean(ValuesFor(lines, key))
  {
    if lines != [] {
      ParsedValuesClean(lines[1..], key);
      var i := IndexOf(lines[0], ':');
      var value := if i < |lines[0]| then lines[0][i + 1..] else "";
      TrimFixpoint(value);
      TrimAddsNothing(value, LF);
      assert Clean(ValueOf(lines[0]));
      hide Clean, ValueOf, KeyOf;
    }
  }

  lemma ReceivedIsClean(text: string, serverToken: string, request: InvocationRequest)
    requires RequestOf(Parsed(BlockLines(text)), serverToken) == Received(request)
    ensures AllClean(Listed(request.cwd)) && AllClean(Listed(request.clientAuthToken))
    ensures AllClean(Listed(request.classpath)) && (request.envVars.Some? ==> AllClean(request.envVars.value))
    ensures Authentic(request.clientAuthToken, serverToken)
  {
    hide BlockLines, ValuesFor, KeysOf, DecodedArgs, Clean;
    var lines := BlockLines(text);
    BlockLinesHoldNoLF(text);
    ParsedValuesClean(lines, "Cwd");
    ParsedValuesClean(lines, "Auth");
    ParsedValuesClean(lines, "Cp");
    ParsedValuesClean(lines, "Env");
  }

  /**
   The request comes back as it was sent if and only if directory, token, class path and environment entries hold no
   line feed and no outer white space, and the token is the server's: a line feed would start a header of its own.
   */
  lemma RequestComesBackIff(cwd: string, token: string, args: seq<string>, envVars: seq<string>,
                            classpath: Option<string>, serverToken: string, rest: string)
    requires Arguments(args)
    ensures var text := RequestText(cwd, token, args, envVars, classpath) + rest;
            (&& AfterBlock(text) == rest
             && RequestOf(Parsed(BlockLines(text)), serverToken)
                == Received(RequestSent(cwd, token, args, envVars, classpath)))
            <==> (&& Clean(cwd) && Clean(token) && AllClean(envVars) && AllClean(Listed(classpath))
                  && token != "" && token == serverToken)
  {
    hide RequestText, Parsed, BlockLines, AfterBlock, RequestOf, Clean;
    var text := RequestText(cwd, token, args, envVars, classpath) + rest;
    var request := RequestSent(cwd, token, args, envVars, classpath);
    if RequestOf(Parsed(BlockLines(text)), serverToken) == Received(request) {
      ReceivedIsClean(text, serverToken, request);
      assert Listed(request.cwd)[0] == cwd && Listed(request.clientAuthToken)[0] == token;
    }
    if Clean(cwd) && Clean(token) && AllClean(envVars) && AllClean(Listed(classpath)) {
      RequestRoundTrip(cwd, token, args, envVars, classpath, serverToken, rest);
    }
  }

  /**
   End to end from the command line: what scan_options leaves of it, send_header sends and
   readInvocationRequest returns, is the plain arguments in order; so are the selected environment entries.
   */
  lemma CommandLineRoundTrip(args: seq<string>, settings: Settings, cwd: string, token: string, env: seq<string>,
                             classpath: Option<string>, rest: string)
    requires Scan(args, settings).Done?
    requires |settings.includeMasks| <= MAX_MASK && |settings.excludeMasks| <= MAX_MASK
    requires Arguments(args) && token != "" && Clean(cwd) && Clean(token) && AllClean(Listed(classpath))
    requires var final := Scan(args, settings).settings;
             var chosen := Selected(final.envAll, final.includeMasks, final.excludeMasks, env);
             chosen.Some? ==> AllClean(chosen.value)
    ensures var slots := Scan(args, settings).slots;
            var final := Scan(args, settings).settings;
            && (exists items :: AllWellFormed(items) && AllWords(items) == args && Survivors(slots) == PlainArgs(items))
            && Arguments(Survivors(slots))
            && match SentRequest(final, slots, cwd, token, env, classpath)
               case None => Selected(final.envAll, final.includeMasks, final.excludeMasks, env) == None
               case Some(text) =>
                 var chosen := Selected(final.envAll, final.includeMasks, final.excludeMasks, env);
                 && chosen.Some? && AfterBlock(text + rest) == rest
                 && RequestOf(Parsed(BlockLines(text + rest)), token)
                    == Received(RequestSent(cwd, token, Survivors(slots), chosen.value, classpath))
  {
    var items := ScanSeparates(args, settings);
    var slots, final := Scan(args, settings).slots, Scan(args, settings).settings;
    PlainSurvive(items);
    SurvivorsAmong(args, slots);
    var chosen := Selected(final.envAll, final.includeMasks, final.excludeMasks, env);
    if chosen.Some? {
      RequestRoundTrip(cwd, token, Survivors(slots), chosen.value, classpath, token, rest);
    }
  }

  function PlainArgs(items: seq<Item>): seq<string> {
    if items == [] then []
    else (if items[0].Plain? then [items[0].arg] else []) + PlainArgs(items[1..])
  }

  lemma {:induction false} PlainSurvive(items: seq<Item>)
    ensures Survivors(AllSlots(items)) == PlainArgs(items)
  {
    if items != [] {
      PlainSurvive(items[1..]);
      SurvivorsAppend(Slots(items[0]), AllSlots(items[1..]));
      var nulled: Option<string> := None;
      assert Survivors([nulled]) == [] by {
        assert [nulled][1..] == [];
      }
      match items[0]
      case Plain(arg) =>
        assert [Some(arg)][1..] == [];
      case Flag(_) =>
      case Valued(_, _) =>
        assert [nulled, nulled][1..] == [nulled];
    }
  }

  lemma {:induction false} SurvivorsAmong(args: seq<string>, slots: seq<Option<string>>)
    requires |slots| == |args| && Arguments(args)
    requires forall i :: 0 <= i < |args| && slots[i].Some? ==> slots[i].value == args[i]
    ensures Arguments(Survivors(slots))
  {
    if slots != [] {
      assert forall i :: 0 <= i < |args[1..]| ==> args[1..][i] == args[i + 1] && slots[1..][i] == slots[i + 1];
      SurvivorsAmong(args[1..], slots[1..]);
    }
  }
}
