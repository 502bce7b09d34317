/** session.c: which environment entries the client passes on, and the headers it makes of them. */
module EnvHeaders {
  import opened Text
  import opened Buf
  import opened Options
  import opened Headers

  /** The answer of a mask test; BadEntry ends the process. */
  datatype Matched = Verdict(yes: bool) | BadEntry

  function MaskMatched(pattern: string, entry: string): Matched {
    if '=' in entry then Verdict(Occurs(pattern, EnvName(entry))) else BadEntry
  }

  function MasksMatched(masks: seq<string>, entry: string): Matched {
    if masks == [] then Verdict(false)
    else
      var first := MaskMatched(masks[0], entry);
      if first == Verdict(false) then MasksMatched(masks[1..], entry) else first
  }

  function Passes(all: bool, inc: seq<string>, exc: seq<string>, entry: string): Matched {
    var included := if all then Verdict(true) else MasksMatched(inc, entry);
    if included != Verdict(true) then included
    else
      match MasksMatched(exc, entry)
      case BadEntry => BadEntry
      case Verdict(excluded) => Verdict(!excluded)
  }

  /** The entries passed on, in order; None when the process ends at one that has no '='. */
  function Selected(all: bool, inc: seq<string>, exc: seq<string>, env: seq<string>): Option<seq<string>> {
    if env == [] then Some([])
    else
      match Passes(all, inc, exc, env[0])
      case BadEntry => None
      case Verdict(yes) =>
        match Selected(all, inc, exc, env[1..])
        case None => None
        case Some(rest) => Some((if yes then [env[0]] else []) + rest)
  }

  ghost predicate SomeOccurs(masks: seq<string>, name: string) {
    exists i :: 0 <= i < |masks| && Occurs(masks[i], name)
  }

  ghost predicate Wanted(all: bool, inc: seq<string>, exc: seq<string>, entry: string) {
    (all || SomeOccurs(inc, EnvName(entry))) && !SomeOccurs(exc, EnvName(entry))
  }

  lemma {:induction false} MasksMatchedIff(masks: seq<string>, entry: string)
    ensures MasksMatched(masks, entry) == BadEntry <==> masks != [] && '=' !in entry
    ensures '=' in entry ==> MasksMatched(masks, entry) == Verdict(SomeOccurs(masks, EnvName(entry)))
  {
    if masks != [] {
      MasksMatchedIff(masks[1..], entry);
      var name := EnvName(entry);
      assert SomeOccurs(masks, name) <==> Occurs(masks[0], name) || SomeOccurs(masks[1..], name) by {
        if SomeOccurs(masks, name) && !Occurs(masks[0], name) {
          var i :| 0 <= i < |masks| && Occurs(masks[i], name);
          assert masks[1..][i - 1] == masks[i];
        }
        if SomeOccurs(masks[1..], name) {
          var i :| 0 <= i < |masks[1..]| && Occurs(masks[1..][i], name);
          assert masks[i + 1] == masks[1..][i];
        }
      }
    }
  }

  /** An entry NAME=VALUE is passed exactly when NAME contains an include mask, or all is set, and no exclude mask. */
  lemma PassesIff(all: bool, inc: seq<string>, exc: seq<string>, entry: string)
    ensures '=' in entry ==> Passes(all, inc, exc, entry) == Verdict(Wanted(all, inc, exc, entry))
    ensures Passes(all, inc, exc, entry) == BadEntry
       <==> '=' !in entry && if all then exc != [] else inc != []
  {
    MasksMatchedIff(inc, entry);
    MasksMatchedIff(exc, entry);
  }

  ghost predicate IsFilter(all: bool, inc: seq<string>, exc: seq<string>, env: seq<string>, passed: seq<string>)
    decreases |env|
  {
    if env == [] then passed == []
    else if Wanted(all, inc, exc, env[0]) then
      passed != [] && passed[0] == env[0] && IsFilter(all, inc, exc, env[1..], passed[1..])
    else IsFilter(all, inc, exc, env[1..], passed)
  }

  /** For an environment of NAME=VALUE entries the client passes exactly the wanted ones, in order. */
  lemma {:induction false} SelectedIsFilter(all: bool, inc: seq<string>, exc: seq<string>, env: seq<string>)
    requires forall i :: 0 <= i < |env| ==> '=' in env[i]
    ensures Selected(all, inc, exc, env).Some?
    ensures IsFilter(all, inc, exc, env, Selected(all, inc, exc, env).value)
  {
    if env != [] {
      PassesIff(all, inc, exc, env[0]);
      assert forall i :: 0 <= i < |env[1..]| ==> env[1..][i] == env[i + 1];
      SelectedIsFilter(all, inc, exc, env[1..]);
      hide Wanted, Passes;
      var rest := Selected(all, inc, exc, env[1..]).value;
      assert ([env[0]] + rest)[1..] == rest && [] + rest == rest;
    }
  }

  /** The process ends exactly when some entry has no '=' and there is a mask to match it against. */
  lemma {:induction false} SelectedFailsIff(all: bool, inc: seq<string>, exc: seq<string>, env: seq<string>)
    ensures Selected(all, inc, exc, env) == None
       <==> (if all then exc != [] else inc != []) && exists i :: 0 <= i < |env| && '=' !in env[i]
  {
    if env != [] {
      PassesIff(all, inc, exc, env[0]);
      SelectedFailsIff(all, inc, exc, env[1..]);
      assert (exists i :: 0 <= i < |env| && '=' !in env[i])
         <==> '=' !in env[0] || exists i :: 0 <= i < |env[1..]| && '=' !in env[1..][i] by {
        if i :| 0 <= i < |env| && '=' !in env[i] {
          assert i == 0 || env[1..][i - 1] == env[i];
        }
        if i :| 0 <= i < |env[1..]| && '=' !in env[1..][i] {
          assert env[i + 1] == env[1..][i];
        }
      }
    }
  }

  // ----- on the environment strings themselves -----

  ghost predicate CStr(a: array<char>)
    reads a
  {
    NUL in a[..]
  }

  ghost function Str(a: array<char>): (s: string)
    reads a
    ensures CString(s)
  {
    UpToNul(a[..])
  }

  lemma CutAtEquals(before: string, after: string)
    requires '=' in UpToNul(before)
    requires after == before[IndexOf(UpToNul(before), '=') := NUL]
    ensures UpToNul(after) == EnvName(UpToNul(before))
  {
    var pos := IndexOf(UpToNul(before), '=');
    assert forall j :: 0 <= j < pos ==> after[j] == before[j] == UpToNul(before)[j];
    assert after[pos] == NUL;
    assert IndexOf(after, NUL) == pos;
    assert after[..pos] == UpToNul(before)[..pos];
  }

  /** mask_match: cuts the string at '=' to look at its name, and mends it. */
  method MaskMatch(pattern: string, str: array<char>) returns (result: Matched)
    requires CStr(str)
    modifies str
    ensures str[..] == old(str[..])
    ensures result == MaskMatched(pattern, Str(str))
  {
    ghost var before := str[..];
    var s := UpToNul(str[..]);
    var pos := IndexOf(s, '=');
    if pos == |s| {
      assert '=' !in s;
      return BadEntry;
    }
    assert s[pos] == '=' && before[pos] == '=';
    str[pos] := NUL;
    CutAtEquals(before, str[..]);
    result := Verdict(Occurs(pattern, UpToNul(str[..])));
    str[pos] := '=';
    assert str[..] == before;
  }

  method MasksMatch(masks: array<Option<string>>, str: array<char>) returns (result: Matched)
    requires masks.Length == MAX_MASK && CStr(str)
    modifies str
    ensures str[..] == old(str[..])
    ensures result == MasksMatched(MaskList(masks[..]), Str(str))
  {
    ghost var list := MaskList(masks[..]);
    ghost var s := Str(str);
    var p := 0;
    while p < MAX_MASK && masks[p].Some?
      invariant p <= |list| && str[..] == old(str[..])
      invariant MasksMatched(list, s) == MasksMatched(list[p..], s)
    {
      var one := MaskMatch(masks[p].value, str);
      assert list[p..][1..] == list[p + 1..];
      if one != Verdict(false) {
        return one;
      }
      p := p + 1;
    }
    assert list[p..] == [];
    result := Verdict(false);
  }

  /** The bytes of the environment strings, terminators included. */
  ghost predicate Holds(env: seq<array<char>>, raw: seq<string>)
    reads env
  {
    |env| == |raw| && forall i :: 0 <= i < |env| ==> NUL in raw[i] && env[i][..] == raw[i]
  }

  function Cut(raw: seq<string>): (strs: seq<string>)
    ensures |strs| == |raw| && forall i :: 0 <= i < |raw| ==> strs[i] == UpToNul(raw[i])
  {
    seq(|raw|, i requires 0 <= i < |raw| => UpToNul(raw[i]))
  }

  method Passed(option: ClientOption, entry: array<char>) returns (result: Matched)
    requires option.Valid() && CStr(entry)
    modifies entry
    ensures entry[..] == old(entry[..])
    ensures result == Passes(option.envAll, MaskList(option.envIncludeMask[..]),
                             MaskList(option.envExcludeMask[..]), Str(entry))
  {
    result := Verdict(true);
    if !option.envAll {
      result := MasksMatch(option.envIncludeMask, entry);
    }
    if result == Verdict(true) {
      result := MasksMatch(option.envExcludeMask, entry);
      if result.Verdict? {
        result := Verdict(!result.yes);
      }
    }
  }

  lemma SelectedSnoc(all: bool, inc: seq<string>, exc: seq<string>, env: seq<string>, entry: string)
    ensures Selected(all, inc, exc, env + [entry])
         == match (Selected(all, inc, exc, env), Passes(all, inc, exc, entry))
            case (Some(before), Verdict(yes)) => Some(before + if yes then [entry] else [])
            case _ => None
  {
    if env == [] {
      assert [] + [entry] == [entry] && [entry][1..] == [];
      hide Passes;
      assert [entry] + [] == [entry];
    } else {
      SelectedSnoc(all, inc, exc, env[1..], entry);
      assert (env + [entry])[1..] == env[1..] + [entry] && (env + [entry])[0] == env[0];
      hide Passes;
      var first, last := Passes(all, inc, exc, env[0]), Passes(all, inc, exc, entry);
      var rest := Selected(all, inc, exc, env[1..]);
      if first.Verdict? && last.Verdict? && rest.Some? {
        Assoc(if first.yes then [env[0]] else [], rest.value, if last.yes then [entry] else []);
      }
    }
  }

  lemma {:induction false} SelectedPrefixFails(all: bool, inc: seq<string>, exc: seq<string>, env: seq<string>, n: nat)
    requires n <= |env| && Selected(all, inc, exc, env[..n]) == None
    ensures Selected(all, inc, exc, env) == None
  {
    if n > 0 && Passes(all, inc, exc, env[0]).Verdict? {
      assert env[..n][1..] == env[1..][..n - 1];
      SelectedPrefixFails(all, inc, exc, env[1..], n - 1);
    }
  }

  /** What an entry adds to the request. */
  function Addition(pass: Matched, entry: string): string {
    if pass == Verdict(true) then HeaderLine("Env", entry) + [LF] else ""
  }

  lemma AdditionIsC(pass: Matched, entry: string)
    requires CString(entry)
    ensures CString(Addition(pass, entry))
  {
  }

  /** The body of make_env_headers' loop. */
  method EmitEntry(readBuf: Buffer, env: seq<array<char>>, i: nat, option: ClientOption, ghost raw: seq<string>)
    returns (pass: Matched)
    requires readBuf.Valid() && option.Valid() && Holds(env, raw) && readBuf.buffer !in env && i < |env|
    modifies readBuf, readBuf.buffer, env
    ensures readBuf.Valid() && readBuf.buffer !in env
    ensures readBuf.buffer == old(readBuf.buffer) || fresh(readBuf.buffer)
    ensures Holds(env, raw)
    ensures pass == Passes(option.envAll, MaskList(option.envIncludeMask[..]),
                           MaskList(option.envExcludeMask[..]), Cut(raw)[i])
    ensures readBuf.Abs().text == old(readBuf.Abs().text) + Addition(pass, Cut(raw)[i])
  {
    hide GrowTo, Passes, MaskList, HeaderLine;
    ghost var s := Cut(raw)[i];
    pass := Passed(option, env[i]);
    assert Holds(env, raw);
    if pass == Verdict(true) {
      AdditionIsC(pass, s);
      readBuf.Printf(HeaderLine("Env", UpToNul(env[i][..])) + [LF]);
    }
  }

  /** `text` is `base` and the headers of what is selected of the first `i` entries. */
  ghost predicate Emitted(all: bool, inc: seq<string>, exc: seq<string>, strs: seq<string>, i: nat,
                          base: string, text: string)
  {
    && i <= |strs| && Selected(all, inc, exc, strs[..i]).Some?
    && text == base + Terminated(EntryLines("Env", Selected(all, inc, exc, strs[..i]).value))
  }

  lemma EmittedNone(all: bool, inc: seq<string>, exc: seq<string>, strs: seq<string>, base: string)
    ensures Emitted(all, inc, exc, strs, 0, base, base)
  {
  }

  lemma EmittedOne(all: bool, inc: seq<string>, exc: seq<string>, strs: seq<string>, i: nat,
                   base: string, text: string, yes: bool)
    requires Emitted(all, inc, exc, strs, i, base, text) && i < |strs|
    requires Passes(all, inc, exc, strs[i]) == Verdict(yes)
    ensures Emitted(all, inc, exc, strs, i + 1, base, text + Addition(Verdict(yes), strs[i]))
  {
    var chosen := Selected(all, inc, exc, strs[..i]).value;
    assert strs[..i + 1] == strs[..i] + [strs[i]];
    SelectedSnoc(all, inc, exc, strs[..i], strs[i]);
    hide Selected, Passes, Terminated, EntryLines, HeaderLine;
    if yes {
      EntryLinesSnoc("Env", chosen, strs[i]);
      TerminatedSnoc(EntryLines("Env", chosen), HeaderLine("Env", strs[i]));
      Assoc(base, Terminated(EntryLines("Env", chosen)), HeaderLine("Env", strs[i]) + [LF]);
      Assoc(Terminated(EntryLines("Env", chosen)), HeaderLine("Env", strs[i]), [LF]);
    } else {
      assert chosen + [] == chosen;
    }
  }

  lemma EmittedAll(all: bool, inc: seq<string>, exc: seq<string>, strs: seq<string>, base: string, text: string)
    requires Emitted(all, inc, exc, strs, |strs|, base, text)
    ensures Appended(Selected(all, inc, exc, strs), base, true, text)
  {
    assert strs[..|strs|] == strs;
  }

  /** What make_env_headers did: all of what is selected follows `base`, or the process ends. */
  ghost predicate Appended(chosen: Option<seq<string>>, base: string, ok: bool, text: string) {
    && (ok <==> chosen.Some?)
    && (ok ==> text == base + Terminated(EntryLines("Env", chosen.value)))
  }

  lemma EmittedBad(all: bool, inc: seq<string>, exc: seq<string>, strs: seq<string>, i: nat)
    requires i < |strs| && Passes(all, inc, exc, strs[i]) == BadEntry
    ensures Selected(all, inc, exc, strs) == None
  {
    assert strs[..i + 1] == strs[..i] + [strs[i]];
    SelectedSnoc(all, inc, exc, strs[..i], strs[i]);
    SelectedPrefixFails(all, inc, exc, strs, i + 1);
  }

  /** One turn of the loop: false when the process ends. */
  method EmitNext(readBuf: Buffer, env: seq<array<char>>, i: nat, option: ClientOption, ghost raw: seq<string>,
                  ghost base: string)
    returns (ok: bool)
    requires readBuf.Valid() && option.Valid() && Holds(env, raw) && readBuf.buffer !in env && i < |env|
    requires Emitted(option.envAll, MaskList(option.envIncludeMask[..]), MaskList(option.envExcludeMask[..]),
                     Cut(raw), i, base, readBuf.Abs().text)
    modifies readBuf, readBuf.buffer, env
    ensures readBuf.Valid() && readBuf.buffer !in env
    ensures readBuf.buffer == old(readBuf.buffer) || fresh(readBuf.buffer)
    ensures Holds(env, raw)
    ensures ok ==> Emitted(option.envAll, MaskList(option.envIncludeMask[..]), MaskList(option.envExcludeMask[..]),
                           Cut(raw), i + 1, base, readBuf.Abs().text)
    ensures !ok ==> Appended(Selected(option.envAll, MaskList(option.envIncludeMask[..]),
                                      MaskList(option.envExcludeMask[..]), Cut(raw)), base, ok, readBuf.Abs().text)
  {
    ghost var all, inc, exc :=
      option.envAll, MaskList(option.envIncludeMask[..]), MaskList(option.envExcludeMask[..]);
    ghost var text := readBuf.Abs().text;
    assert |env| == |raw|;
    hide Emitted, Selected, Passes, MaskList, EntryLines, Terminated, GrowTo, Addition, FrontLoaded, Holds, Cut;
    var pass := EmitEntry(readBuf, env, i, option, raw);
    ok := pass.Verdict?;
    if ok {
      EmittedOne(all, inc, exc, Cut(raw), i, base, text, pass.yes);
    } else {
      EmittedBad(all, inc, exc, Cut(raw), i);
      assert Appended(None, base, ok, readBuf.Abs().text);
    }
  }

  lemma HoldsLength(env: seq<array<char>>, raw: seq<string>)
    requires Holds(env, raw)
    ensures |env| == |raw| == |Cut(raw)|
  {
  }

  /** make_env_headers: false when the process ends. The environment ends as it began. */
  method MakeEnvHeaders(readBuf: Buffer, env: seq<array<char>>, option: ClientOption, ghost raw: seq<string>)
    returns (ok: bool)
    requires readBuf.Valid() && option.Valid() && Holds(env, raw) && readBuf.buffer !in env
    modifies readBuf, readBuf.buffer, env
    ensures readBuf.Valid() && (readBuf.buffer == old(readBuf.buffer) || fresh(readBuf.buffer))
    ensures Holds(env, raw)
    ensures Appended(Selected(option.envAll, MaskList(option.envIncludeMask[..]),
                              MaskList(option.envExcludeMask[..]), Cut(raw)),
                     old(readBuf.Abs().text), ok, readBuf.Abs().text)
  {
    hide *;
    ghost var base, strs := readBuf.Abs().text, Cut(raw);
    ghost var all, inc, exc :=
      option.envAll, MaskList(option.envIncludeMask[..]), MaskList(option.envExcludeMask[..]);
    EmittedNone(all, inc, exc, strs, base);
    HoldsLength(env, raw);
    var i := 0;
    while i < |env|
      invariant 0 <= i <= |env| == |strs|
      invariant readBuf.Valid() && readBuf.buffer !in env
      invariant readBuf.buffer == old(readBuf.buffer) || fresh(readBuf.buffer)
      invariant Holds(env, raw)
      invariant Emitted(all, inc, exc, strs, i, base, readBuf.Abs().text)
    {
      ok := EmitNext(readBuf, env, i, option, raw, base);
      if !ok {
        return;
      }
      i := i + 1;
    }
    EmittedAll(all, inc, exc, strs, base, readBuf.Abs().text);
    ok := true;
  }
}
