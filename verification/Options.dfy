/** option.c: scan_options separates the client's own -C options from groovy's arguments, in place. */
module Options {
  import opened Text

  const MAX_MASK: nat := 10
  const CLIENT_OPTION_PREFIX := "-C"
  const PORT_NOT_SPECIFIED: int := -1

  datatype Kind =
    | HOST | PORT | AUTHTOKEN | KILL_SERVER | RESTART_SERVER | QUIET
    | ENV | ENV_ALL | ENV_EXCLUDE | HELP | VERSION

  datatype Info = Info(name: string, kind: Kind, takeValue: bool)

  const OPTION_INFO: seq<Info> := [
    Info("s", HOST, true),
    Info("host", HOST, true),
    Info("p", PORT, true),
    Info("port", PORT, true),
    Info("a", AUTHTOKEN, true),
    Info("authtoken", AUTHTOKEN, true),
    Info("k", KILL_SERVER, false),
    Info("kill-server", KILL_SERVER, false),
    Info("r", RESTART_SERVER, false),
    Info("restart-server", RESTART_SERVER, false),
    Info("env", ENV, true),
    Info("env-all", ENV_ALL, false),
    Info("env-exclude", ENV_EXCLUDE, true),
    Info("q", QUIET, false),
    Info("quiet", QUIET, false),
    Info("help", HELP, false),
    Info("h", HELP, false),
    Info("", HELP, false),
    Info("version", VERSION, false),
    Info("v", VERSION, false)
  ]

  /** The values of struct option_t; a mask list is the non-NULL front of its array. */
  datatype Settings = Settings(
    host: Option<string>, port: int, authtoken: Option<string>,
    kill: bool, restart: bool, quiet: bool, envAll: bool,
    includeMasks: seq<string>, excludeMasks: seq<string>,
    help: bool, version: bool)

  /** Why the process ends instead of contacting the server. */
  datatype Stop =
    | Unrecognized(opt: string) | MissingParam(opt: string) | BadPort(value: string)
    | TooManyMasks(name: string, value: string) | UsageShown | VersionShown
    | KillAndRestart | RestartWithHost | KillWithHost

  datatype Applied = Accepted(settings: Settings) | Refused(why: Stop)

  predicate IsClientOption(s: string) {
    CLIENT_OPTION_PREFIX <= s
  }

  function NameOf(s: string): string
    requires IsClientOption(s)
  {
    s[|CLIENT_OPTION_PREFIX|..]
  }

  predicate IsGroovyHelpOption(s: string) {
    "-h" <= s || s == "--help"
  }

  predicate IsGroovyVersionOption(s: string) {
    "-v" <= s || s == "--version"
  }

  function FindOption(infos: seq<Info>, name: string): Option<Info> {
    if infos == [] then None
    else if infos[0].name == name then Some(infos[0])
    else FindOption(infos[1..], name)
  }

  /** sscanf(value, "%d", ...): None when no number could be read. */
  function ScanInt(value: string): Option<int> {
    var t := SkipSpaces(value);
    var digits := if t != "" && (t[0] == '-' || t[0] == '+') then t[1..] else t;
    if DigitRun(digits) == 0 then None else Some(Atoi(value))
  }

  function Note(settings: Settings, arg: string): Settings {
    settings.(help := settings.help || IsGroovyHelpOption(arg),
              version := settings.version || IsGroovyVersionOption(arg))
  }

  function Apply(settings: Settings, info: Info, value: string): Applied {
    match info.kind
    case HOST => Accepted(settings.(host := Some(value)))
    case PORT =>
      (match ScanInt(value)
       case None => Refused(BadPort(value))
       case Some(n) => Accepted(settings.(port := n)))
    case AUTHTOKEN => Accepted(settings.(authtoken := Some(value)))
    case KILL_SERVER => Accepted(settings.(kill := true))
    case RESTART_SERVER => Accepted(settings.(restart := true))
    case QUIET => Accepted(settings.(quiet := true))
    case ENV =>
      if |settings.includeMasks| >= MAX_MASK then Refused(TooManyMasks(info.name, value))
      else Accepted(settings.(includeMasks := settings.includeMasks + [value]))
    case ENV_ALL => Accepted(settings.(envAll := true))
    case ENV_EXCLUDE =>
      if |settings.excludeMasks| >= MAX_MASK then Refused(TooManyMasks(info.name, value))
      else Accepted(settings.(excludeMasks := settings.excludeMasks + [value]))
    case HELP => Refused(UsageShown)
    case VERSION => Refused(VersionShown)
  }

  // ----- the recursive parser -----

  /** `slots` are the argv entries after the scan, NULL being None. */
  datatype Scanned = Done(slots: seq<Option<string>>, settings: Settings) | Stopped(why: Stop)

  function Prepend(slots: seq<Option<string>>, r: Scanned): Scanned {
    if r.Done? then Done(slots + r.slots, r.settings) else r
  }

  /** What one turn of the loop does with `arg`, `following` being the entry after it. */
  datatype Turn = Turn(slots: seq<Option<string>>, settings: Settings) | Halt(why: Stop)

  function OfApplied(slots: seq<Option<string>>, r: Applied): Turn {
    match r
    case Accepted(next) => Turn(slots, next)
    case Refused(why) => Halt(why)
  }

  function OneTurn(arg: string, following: Option<string>, settings: Settings): (turn: Turn)
    ensures turn.Turn? ==> 1 <= |turn.slots| <= if following.Some? then 2 else 1
  {
    var noted := Note(settings, arg);
    if !IsClientOption(arg) then Turn([Some(arg)], noted)
    else
      var info := FindOption(OPTION_INFO, NameOf(arg));
      if info.None? then Halt(Unrecognized(arg))
      else if !info.value.takeValue then OfApplied([None], Apply(noted, info.value, ""))
      else if following.None? then Halt(MissingParam(arg))
      else OfApplied([None, None], Apply(noted, info.value, following.value))
  }

  function Following(args: seq<string>): Option<string> {
    if |args| > 1 then Some(args[1]) else None
  }

  function Scan(args: seq<string>, settings: Settings): Scanned {
    if args == [] then Done([], settings)
    else
      match OneTurn(args[0], Following(args), settings)
      case Halt(why) => Stopped(why)
      case Turn(slots, next) => Prepend(slots, Scan(args[|slots|..], next))
  }

  /** The checks after the loop. */
  function Conflict(s: Settings): Option<Stop> {
    if s.kill && s.restart then Some(KillAndRestart)
    else if s.host.Some? && s.restart then Some(RestartWithHost)
    else if s.host.Some? && s.kill then Some(KillWithHost)
    else None
  }

  function Outcome(args: seq<string>, settings: Settings): Scanned {
    if args == [] then Done([], settings.(help := true))
    else
      match Scan(args, settings)
      case Stopped(why) => Stopped(why)
      case Done(slots, final) =>
        if Conflict(final).Some? then Stopped(Conflict(final).value) else Done(slots, final)
  }

  // ----- the grammar of a command line -----

  datatype Item = Plain(arg: string) | Flag(info: Info) | Valued(info: Info, value: string)

  predicate WellFormed(item: Item) {
    match item
    case Plain(arg) => !IsClientOption(arg)
    case Flag(info) => !info.takeValue && FindOption(OPTION_INFO, info.name) == Some(info)
    case Valued(info, _) => info.takeValue && FindOption(OPTION_INFO, info.name) == Some(info)
  }

  function Words(item: Item): seq<string> {
    match item
    case Plain(arg) => [arg]
    case Flag(info) => [CLIENT_OPTION_PREFIX + info.name]
    case Valued(info, value) => [CLIENT_OPTION_PREFIX + info.name, value]
  }

  function Slots(item: Item): seq<Option<string>> {
    match item
    case Plain(arg) => [Some(arg)]
    case Flag(_) => [None]
    case Valued(_, _) => [None, None]
  }

  function Effect(item: Item, settings: Settings): Applied {
    var noted := Note(settings, Words(item)[0]);
    match item
    case Plain(_) => Accepted(noted)
    case Flag(info) => Apply(noted, info, "")
    case Valued(info, value) => Apply(noted, info, value)
  }

  function AllWords(items: seq<Item>): seq<string> {
    if items == [] then [] else Words(items[0]) + AllWords(items[1..])
  }

  function AllSlots(items: seq<Item>): seq<Option<string>> {
    if items == [] then [] else Slots(items[0]) + AllSlots(items[1..])
  }

  function AllEffects(items: seq<Item>, settings: Settings): Applied {
    if items == [] then Accepted(settings)
    else
      match Effect(items[0], settings)
      case Refused(why) => Refused(why)
      case Accepted(next) => AllEffects(items[1..], next)
  }

  function ItemValue(item: Item, kind: Kind): seq<string> {
    if item.Valued? && item.info.kind == kind then [item.value] else []
  }

  /** The values that options of `kind` receive, in order. */
  function ValuesOf(items: seq<Item>, kind: Kind): seq<string> {
    if items == [] then []
    else ItemValue(items[0], kind) + ValuesOf(items[1..], kind)
  }

  ghost predicate AllWellFormed(items: seq<Item>) {
    forall i :: 0 <= i < |items| ==> WellFormed(items[i])
  }

  function AfterItem(item: Item, rest: seq<string>, effect: Applied): Scanned {
    match effect
    case Refused(why) => Stopped(why)
    case Accepted(next) => Prepend(Slots(item), Scan(rest, next))
  }

  lemma ScanItem(item: Item, rest: seq<string>, settings: Settings)
    requires WellFormed(item)
    ensures Scan(Words(item) + rest, settings) == AfterItem(item, rest, Effect(item, settings))
  {
    var args, words := Words(item) + rest, Words(item);
    hide Apply, FindOption, Note, OPTION_INFO;
    assert item.Plain? || NameOf(words[0]) == item.info.name;
    assert args[0] == words[0] && args[|words|..] == rest;
  }

  /**
   Every sequence of plain arguments, flags and options with values is read back as it
   was written, values that themselves start with -C included; the first refused one stops the scan.
   */
  lemma {:induction false} ScanReadsItems(items: seq<Item>, settings: Settings)
    requires AllWellFormed(items)
    ensures Scan(AllWords(items), settings)
         == match AllEffects(items, settings)
            case Refused(why) => Stopped(why)
            case Accepted(final) => Done(AllSlots(items), final)
  {
    if items != [] {
      var item, rest := items[0], AllWords(items[1..]);
      ScanItem(item, rest, settings);
      hide Apply, Effect, Words, Slots, Scan;
      match Effect(item, settings)
      case Refused(_) =>
      case Accepted(next) => ScanReadsItems(items[1..], next);
    } else {
      assert AllWords(items) == [] && AllSlots(items) == [];
    }
  }

  /** The item at the front of an argument list that scans. */
  lemma FirstItem(args: seq<string>, settings: Settings) returns (item: Item, rest: seq<string>)
    requires args != [] && Scan(args, settings).Done?
    ensures WellFormed(item) && Effect(item, settings).Accepted?
    ensures args == Words(item) + rest && |rest| < |args|
  {
    hide Apply, Note, OPTION_INFO, FindOption, IsClientOption, CLIENT_OPTION_PREFIX;
    var a := args[0];
    if !IsClientOption(a) {
      item, rest := Plain(a), args[1..];
    } else {
      var info := FindOption(OPTION_INFO, NameOf(a)).value;
      FindOptionNames(OPTION_INFO, NameOf(a));
      PrefixThenName(a);
      if info.takeValue {
        item, rest := Valued(info, args[1]), args[2..];
      } else {
        item, rest := Flag(info), args[1..];
      }
    }
  }

  lemma PrefixThenName(a: string)
    requires IsClientOption(a)
    ensures a == CLIENT_OPTION_PREFIX + NameOf(a)
  {
  }

  lemma PrefixLength()
    ensures |CLIENT_OPTION_PREFIX| == 2
  {
  }

  lemma {:induction false} FindOptionNames(infos: seq<Info>, name: string)
    ensures FindOption(infos, name).Some? ==> FindOption(infos, name).value.name == name
  {
    if infos != [] && infos[0].name != name {
      FindOptionNames(infos[1..], name);
    }
  }

  /** An argument list that scans is some sequence of well-formed items. */
  lemma {:induction false} ScanFindsItems(args: seq<string>, settings: Settings) returns (items: seq<Item>)
    requires Scan(args, settings).Done?
    ensures AllWellFormed(items) && AllWords(items) == args
    ensures AllEffects(items, settings) == Accepted(Scan(args, settings).settings)
    ensures AllSlots(items) == Scan(args, settings).slots
    decreases |args|
  {
    if args == [] {
      items := [];
    } else {
      var item, rest := FirstItem(args, settings);
      ScanItem(item, rest, settings);
      hide Apply, Effect, Words, Slots, Scan, WellFormed;
      var tail := ScanFindsItems(rest, Effect(item, settings).settings);
      items := [item] + tail;
      assert items[1..] == tail;
    }
  }

  lemma ApplyOnMasks(settings: Settings, info: Info, value: string)
    requires Apply(settings, info, value).Accepted?
    ensures var after := Apply(settings, info, value).settings;
            && (info.kind == ENV ==> after.includeMasks == settings.includeMasks + [value]
                                     && |settings.includeMasks| < MAX_MASK)
            && (info.kind != ENV ==> after.includeMasks == settings.includeMasks)
            && (info.kind == ENV_EXCLUDE ==> after.excludeMasks == settings.excludeMasks + [value]
                                             && |settings.excludeMasks| < MAX_MASK)
            && (info.kind != ENV_EXCLUDE ==> after.excludeMasks == settings.excludeMasks)
  {
    hide ScanInt;
  }

  lemma EffectOnMasks(item: Item, settings: Settings)
    requires WellFormed(item) && Effect(item, settings).Accepted?
    ensures var after := Effect(item, settings).settings;
            && after.includeMasks == settings.includeMasks + ItemValue(item, ENV)
            && after.excludeMasks == settings.excludeMasks + ItemValue(item, ENV_EXCLUDE)
            && (|settings.includeMasks| <= MAX_MASK ==> |after.includeMasks| <= MAX_MASK)
            && (|settings.excludeMasks| <= MAX_MASK ==> |after.excludeMasks| <= MAX_MASK)
  {
    MaskOptionsTakeValues(OPTION_INFO);
    hide OPTION_INFO, Apply, IsGroovyHelpOption, IsGroovyVersionOption;
    var noted := Note(settings, Words(item)[0]);
    match item
    case Plain(_) =>
    case Flag(info) =>
      FoundIsListed(OPTION_INFO, info.name);
      ApplyOnMasks(noted, info, "");
    case Valued(info, value) =>
      ApplyOnMasks(noted, info, value);
  }

  lemma MaskOptionsTakeValues(infos: seq<Info>)
    requires infos == OPTION_INFO
    ensures forall i :: 0 <= i < |infos| && (infos[i].kind == ENV || infos[i].kind == ENV_EXCLUDE) ==>
              infos[i].takeValue
  {
  }

  lemma {:induction false} FoundIsListed(infos: seq<Info>, name: string)
    ensures FindOption(infos, name).Some? ==> FindOption(infos, name).value in infos
  {
    if infos != [] && infos[0].name != name {
      FoundIsListed(infos[1..], name);
    }
  }

  lemma {:induction false} EffectsOnMasks(items: seq<Item>, settings: Settings)
    requires AllWellFormed(items) && AllEffects(items, settings).Accepted?
    requires |settings.includeMasks| <= MAX_MASK && |settings.excludeMasks| <= MAX_MASK
    ensures var final := AllEffects(items, settings).settings;
            && final.includeMasks == settings.includeMasks + ValuesOf(items, ENV)
            && final.excludeMasks == settings.excludeMasks + ValuesOf(items, ENV_EXCLUDE)
            && |final.includeMasks| <= MAX_MASK && |final.excludeMasks| <= MAX_MASK
  {
    if items != [] {
      EffectOnMasks(items[0], settings);
      hide Effect, WellFormed, ItemValue;
      var next := Effect(items[0], settings).settings;
      EffectsOnMasks(items[1..], next);
      Assoc(settings.includeMasks, ItemValue(items[0], ENV), ValuesOf(items[1..], ENV));
      Assoc(settings.excludeMasks, ItemValue(items[0], ENV_EXCLUDE), ValuesOf(items[1..], ENV_EXCLUDE));
    }
  }

  lemma {:induction false} SlotsOfItems(items: seq<Item>)
    requires AllWellFormed(items)
    ensures |AllSlots(items)| == |AllWords(items)|
    ensures forall i :: 0 <= i < |AllSlots(items)| && AllSlots(items)[i].Some? ==>
              AllSlots(items)[i].value == AllWords(items)[i] && !IsClientOption(AllWords(items)[i])
  {
    if items != [] {
      SlotsOfItems(items[1..]);
    }
  }

  /**
   When the scan succeeds, the command line is a sequence of items of which exactly the
   options and their values are NULLed; every other entry stays where and what it was and
   is not a -C option; the mask lists hold the values given to them, in order, at most MAX_MASK each.
   */
  lemma ScanSeparates(args: seq<string>, settings: Settings) returns (items: seq<Item>)
    requires Scan(args, settings).Done?
    requires |settings.includeMasks| <= MAX_MASK && |settings.excludeMasks| <= MAX_MASK
    ensures AllWellFormed(items) && AllWords(items) == args
    ensures var r := Scan(args, settings);
            && r.slots == AllSlots(items) && |r.slots| == |args|
            && (forall i :: 0 <= i < |args| && r.slots[i].Some? ==>
                  r.slots[i].value == args[i] && !IsClientOption(args[i]))
            && r.settings.includeMasks == settings.includeMasks + ValuesOf(items, ENV)
            && r.settings.excludeMasks == settings.excludeMasks + ValuesOf(items, ENV_EXCLUDE)
            && |r.settings.includeMasks| <= MAX_MASK && |r.settings.excludeMasks| <= MAX_MASK
  {
    items := ScanFindsItems(args, settings);
    EffectsOnMasks(items, settings);
    SlotsOfItems(items);
  }

  // ----- what the options mean, by their names -----

  /** The kind of option that each name behind -C stands for. */
  function KindNamed(name: string): Option<Kind> {
    if name == "s" || name == "host" then Some(HOST)
    else if name == "p" || name == "port" then Some(PORT)
    else if name == "a" || name == "authtoken" then Some(AUTHTOKEN)
    else if name == "k" || name == "kill-server" then Some(KILL_SERVER)
    else if name == "r" || name == "restart-server" then Some(RESTART_SERVER)
    else if name == "env" then Some(ENV)
    else if name == "env-all" then Some(ENV_ALL)
    else if name == "env-exclude" then Some(ENV_EXCLUDE)
    else if name == "q" || name == "quiet" then Some(QUIET)
    else if name == "help" || name == "h" || name == "" then Some(HELP)
    else if name == "version" || name == "v" then Some(VERSION)
    else None
  }

  lemma TableAt(i: nat)
    requires i < |OPTION_INFO|
    ensures KindNamed(OPTION_INFO[i].name) == Some(OPTION_INFO[i].kind)
    ensures OPTION_INFO[i].takeValue <==> OPTION_INFO[i].kind in {HOST, PORT, AUTHTOKEN, ENV, ENV_EXCLUDE}
  {
    TableSize();
    hide OPTION_INFO, KindNamed;
    if i < 6 {
      TableFront(i);
    } else if i < 13 {
      TableMiddle(i);
    } else if i < 17 {
      TableBack(i);
    } else {
      TableEnd(i);
    }
  }

  lemma TableSize()
    ensures |OPTION_INFO| == 20
  {
  }

  lemma TableFront(i: nat)
    requires i < 6 && |OPTION_INFO| == 20
    ensures KindNamed(OPTION_INFO[i].name) == Some(OPTION_INFO[i].kind)
    ensures OPTION_INFO[i].takeValue <==> OPTION_INFO[i].kind in {HOST, PORT, AUTHTOKEN, ENV, ENV_EXCLUDE}
  {
  }

  lemma TableMiddle(i: nat)
    requires 6 <= i < 13 && |OPTION_INFO| == 20
    ensures KindNamed(OPTION_INFO[i].name) == Some(OPTION_INFO[i].kind)
    ensures OPTION_INFO[i].takeValue <==> OPTION_INFO[i].kind in {HOST, PORT, AUTHTOKEN, ENV, ENV_EXCLUDE}
  {
  }

  lemma TableBack(i: nat)
    requires 13 <= i < 17 && |OPTION_INFO| == 20
    ensures KindNamed(OPTION_INFO[i].name) == Some(OPTION_INFO[i].kind)
    ensures OPTION_INFO[i].takeValue <==> OPTION_INFO[i].kind in {HOST, PORT, AUTHTOKEN, ENV, ENV_EXCLUDE}
  {
  }

  lemma TableEnd(i: nat)
    requires 17 <= i < 20 && |OPTION_INFO| == 20
    ensures KindNamed(OPTION_INFO[i].name) == Some(OPTION_INFO[i].kind)
    ensures OPTION_INFO[i].takeValue <==> OPTION_INFO[i].kind in {HOST, PORT, AUTHTOKEN, ENV, ENV_EXCLUDE}
  {
  }

  lemma NamedInTable(info: Info)
    requires FindOption(OPTION_INFO, info.name) == Some(info)
    ensures KindNamed(info.name) == Some(info.kind)
    ensures info.takeValue <==> info.kind in {HOST, PORT, AUTHTOKEN, ENV, ENV_EXCLUDE}
  {
    FoundIsListed(OPTION_INFO, info.name);
    hide OPTION_INFO, KindNamed;
    var i :| 0 <= i < |OPTION_INFO| && OPTION_INFO[i] == info;
    TableAt(i);
  }

  /** The value of the last option among `items` with one of these names, else `initial`. */
  function LastValue(items: seq<Item>, names: set<string>, initial: Option<string>): Option<string> {
    if items == [] then initial
    else
      var last := items[|items| - 1];
      if last.Valued? && last.info.name in names then Some(last.value)
      else LastValue(items[..|items| - 1], names, initial)
  }

  /** Whether a flag with one of these names is there. */
  ghost predicate HasFlag(items: seq<Item>, names: set<string>) {
    exists i :: 0 <= i < |items| && items[i].Flag? && items[i].info.name in names
  }

  ghost predicate AsksHelp(items: seq<Item>) {
    exists i :: 0 <= i < |items| && items[i].Plain? && ("-h" <= items[i].arg || items[i].arg == "--help")
  }

  ghost predicate AsksVersion(items: seq<Item>) {
    exists i :: 0 <= i < |items| && items[i].Plain? && ("-v" <= items[i].arg || items[i].arg == "--version")
  }

  /** A whole number between blanks and any other text is read. */
  lemma ScanIntReads(a: string, n: int, b: string)
    requires (forall i :: 0 <= i < |a| ==> IsSpace(a[i])) && (b == "" || !IsDigit(b[0]))
    ensures ScanInt(a + Decimal(n) + b) == Some(n)
  {
    hide Digits, SkipSpaces, Atoi, DigitRun;
    AtoiReadsFront(a, n, b);
    Assoc(a, Decimal(n), b);
    SpacesSkipped(a, Decimal(n) + b);
    DigitsSeen(Digits(if n < 0 then -n else n), n < 0, b);
  }

  lemma DigitsSeen(d: string, negative: bool, b: string)
    requires AllDigits(d) && (b == "" || !IsDigit(b[0]))
    ensures var t := SkipSpaces((if negative then "-" + d else d) + b);
            DigitRun(if t != "" && (t[0] == '-' || t[0] == '+') then t[1..] else t) > 0
  {
    var t := (if negative then "-" + d else d) + b;
    assert IsDigit(d[0]) && t[0] == (if negative then '-' else d[0]);
    assert SkipSpaces(t) == t;
    DigitRunOf(d, b);
    hide SkipSpaces, DigitRun;
    assert negative ==> t[1..] == d + b;
  }

  /** How one accepted item changes the settings. */
  lemma EffectByName(item: Item, s: Settings)
    requires WellFormed(item) && Effect(item, s).Accepted?
    ensures var after := Effect(item, s).settings;
            && after.host == LastValue([item], {"s", "host"}, s.host)
            && after.authtoken == LastValue([item], {"a", "authtoken"}, s.authtoken)
            && (if item.Valued? && item.info.name in {"p", "port"} then ScanInt(item.value) == Some(after.port)
                else after.port == s.port)
            && (after.kill <==> s.kill || (item.Flag? && item.info.name in {"k", "kill-server"}))
            && (after.restart <==> s.restart || (item.Flag? && item.info.name in {"r", "restart-server"}))
            && (after.quiet <==> s.quiet || (item.Flag? && item.info.name in {"q", "quiet"}))
            && (after.envAll <==> s.envAll || (item.Flag? && item.info.name == "env-all"))
            && (after.help <==> s.help || (item.Plain? && ("-h" <= item.arg || item.arg == "--help")))
            && (after.version <==> s.version || (item.Plain? && ("-v" <= item.arg || item.arg == "--version")))
  {
    hide ScanInt, OPTION_INFO, FindOption, LastValue, KindNamed, Effect;
    OneValue(item, {"s", "host"}, s.host);
    OneValue(item, {"a", "authtoken"}, s.authtoken);
    EffectByKind(item, s);
    if !item.Plain? {
      NamedInTable(item.info);
      NamesOfKinds(item.info.name);
    }
  }

  lemma NamesOfKinds(name: string)
    ensures KindNamed(name) == Some(HOST) <==> name in {"s", "host"}
    ensures KindNamed(name) == Some(PORT) <==> name in {"p", "port"}
    ensures KindNamed(name) == Some(AUTHTOKEN) <==> name in {"a", "authtoken"}
    ensures KindNamed(name) == Some(KILL_SERVER) <==> name in {"k", "kill-server"}
    ensures KindNamed(name) == Some(RESTART_SERVER) <==> name in {"r", "restart-server"}
    ensures KindNamed(name) == Some(QUIET) <==> name in {"q", "quiet"}
    ensures KindNamed(name) == Some(ENV) <==> name == "env"
    ensures KindNamed(name) == Some(ENV_ALL) <==> name == "env-all"
    ensures KindNamed(name) == Some(ENV_EXCLUDE) <==> name == "env-exclude"
    ensures KindNamed(name) == Some(HELP) <==> name in {"help", "h", ""}
    ensures KindNamed(name) == Some(VERSION) <==> name in {"version", "v"}
  {
  }

  lemma EffectByKind(item: Item, s: Settings)
    requires WellFormed(item) && Effect(item, s).Accepted?
    ensures var after := Effect(item, s).settings;
            && after.host == (if item.Valued? && item.info.kind == HOST then Some(item.value) else s.host)
            && after.authtoken
               == (if item.Valued? && item.info.kind == AUTHTOKEN then Some(item.value) else s.authtoken)
            && (if item.Valued? && item.info.kind == PORT then ScanInt(item.value) == Some(after.port)
                else after.port == s.port)
            && (after.kill <==> s.kill || (item.Flag? && item.info.kind == KILL_SERVER))
            && (after.restart <==> s.restart || (item.Flag? && item.info.kind == RESTART_SERVER))
            && (after.quiet <==> s.quiet || (item.Flag? && item.info.kind == QUIET))
            && (after.envAll <==> s.envAll || (item.Flag? && item.info.kind == ENV_ALL))
            && (after.help <==> s.help || (item.Plain? && ("-h" <= item.arg || item.arg == "--help")))
            && (after.version <==> s.version || (item.Plain? && ("-v" <= item.arg || item.arg == "--version")))
  {
    hide ScanInt, OPTION_INFO, FindOption, KindNamed, Apply, IsGroovyHelpOption, IsGroovyVersionOption;
    GroovysAre(Words(item)[0]);
    if !item.Plain? {
      NamedInTable(item.info);
      NotGroovys(item.info.name);
      ApplyByKind(Note(s, Words(item)[0]), item.info, if item.Valued? then item.value else "");
    }
  }

  lemma GroovysAre(arg: string)
    ensures IsGroovyHelpOption(arg) <==> "-h" <= arg || arg == "--help"
    ensures IsGroovyVersionOption(arg) <==> "-v" <= arg || arg == "--version"
  {
  }

  lemma ApplyByKind(s: Settings, info: Info, value: string)
    requires Apply(s, info, value).Accepted?
    ensures var after := Apply(s, info, value).settings;
            && after.host == (if info.kind == HOST then Some(value) else s.host)
            && after.authtoken == (if info.kind == AUTHTOKEN then Some(value) else s.authtoken)
            && (if info.kind == PORT then ScanInt(value) == Some(after.port) else after.port == s.port)
            && after.help == s.help && after.version == s.version
    ensures var after := Apply(s, info, value).settings;
            && (after.kill <==> s.kill || info.kind == KILL_SERVER)
            && (after.restart <==> s.restart || info.kind == RESTART_SERVER)
            && (after.quiet <==> s.quiet || info.kind == QUIET)
            && (after.envAll <==> s.envAll || info.kind == ENV_ALL)
  {
    hide ScanInt;
    match info.kind {
      case HOST =>
      case PORT =>
      case AUTHTOKEN =>
      case KILL_SERVER =>
      case RESTART_SERVER =>
      case QUIET =>
      case ENV =>
      case ENV_ALL =>
      case ENV_EXCLUDE =>
      case HELP =>
      case VERSION =>
    }
  }

  lemma NotGroovys(name: string)
    ensures !IsGroovyHelpOption(CLIENT_OPTION_PREFIX + name) && !IsGroovyVersionOption(CLIENT_OPTION_PREFIX + name)
  {
    var word := CLIENT_OPTION_PREFIX + name;
    assert word[0] == '-' && word[1] == 'C';
  }

  lemma {:induction false} EffectsSnoc(items: seq<Item>, item: Item, s: Settings)
    ensures AllEffects(items + [item], s)
         == match AllEffects(items, s)
            case Refused(why) => Refused(why)
            case Accepted(next) => Effect(item, next)
    decreases |items|
  {
    hide Effect;
    if items == [] {
      assert [] + [item] == [item] && [item][1..] == [];
    } else {
      assert (items + [item])[1..] == items[1..] + [item] && (items + [item])[0] == items[0];
      if Effect(items[0], s).Accepted? {
        EffectsSnoc(items[1..], item, Effect(items[0], s).settings);
      }
    }
  }

  /** The settings that a sequence of accepted items leaves, each by the names of its own options. */
  ghost predicate Meant(items: seq<Item>, before: Settings, after: Settings) {
    && after.host == LastValue(items, {"s", "host"}, before.host)
    && after.authtoken == LastValue(items, {"a", "authtoken"}, before.authtoken)
    && (match LastValue(items, {"p", "port"}, None)
        case None => after.port == before.port
        case Some(value) => ScanInt(value) == Some(after.port))
    && (after.kill <==> before.kill || HasFlag(items, {"k", "kill-server"}))
    && (after.restart <==> before.restart || HasFlag(items, {"r", "restart-server"}))
    && (after.quiet <==> before.quiet || HasFlag(items, {"q", "quiet"}))
    && (after.envAll <==> before.envAll || HasFlag(items, {"env-all"}))
    && (after.help <==> before.help || AsksHelp(items))
    && (after.version <==> before.version || AsksVersion(items))
  }

  lemma HasFlagSnoc(items: seq<Item>, item: Item, names: set<string>)
    ensures HasFlag(items + [item], names) <==> HasFlag(items, names) || (item.Flag? && item.info.name in names)
  {
    var all := items + [item];
    assert all[|items|] == item && forall i :: 0 <= i < |items| ==> all[i] == items[i];
  }

  lemma AsksSnoc(items: seq<Item>, item: Item)
    ensures AsksHelp(items + [item])
       <==> AsksHelp(items) || (item.Plain? && ("-h" <= item.arg || item.arg == "--help"))
    ensures AsksVersion(items + [item])
       <==> AsksVersion(items) || (item.Plain? && ("-v" <= item.arg || item.arg == "--version"))
  {
    var all := items + [item];
    assert all[|items|] == item && forall i :: 0 <= i < |items| ==> all[i] == items[i];
  }

  lemma LastValueSnoc(items: seq<Item>, item: Item, names: set<string>, initial: Option<string>)
    ensures LastValue(items + [item], names, initial) == LastValue([item], names, LastValue(items, names, initial))
  {
    assert (items + [item])[..|items|] == items && [item][..0] == [];
  }

  lemma MeantOneMore(items: seq<Item>, item: Item, before: Settings, next: Settings, after: Settings)
    requires Meant(items, before, next) && WellFormed(item) && Effect(item, next) == Accepted(after)
    ensures Meant(items + [item], before, after)
  {
    hide Effect, ScanInt, HasFlag, AsksHelp, AsksVersion, WellFormed;
    EffectByName(item, next);
    AsksSnoc(items, item);
    HasFlagSnoc(items, item, {"k", "kill-server"});
    HasFlagSnoc(items, item, {"r", "restart-server"});
    HasFlagSnoc(items, item, {"q", "quiet"});
    HasFlagSnoc(items, item, {"env-all"});
    LastValueSnoc(items, item, {"s", "host"}, before.host);
    LastValueSnoc(items, item, {"a", "authtoken"}, before.authtoken);
    LastValueSnoc(items, item, {"p", "port"}, None);
    OneValue(item, {"p", "port"}, LastValue(items, {"p", "port"}, None));
    hide LastValue;
  }

  lemma OneValue(item: Item, names: set<string>, initial: Option<string>)
    ensures LastValue([item], names, initial)
         == if item.Valued? && item.info.name in names then Some(item.value) else initial
  {
    assert [item][..0] == [];
  }

  lemma {:induction false} ItemsMean(items: seq<Item>, settings: Settings)
    requires AllWellFormed(items) && AllEffects(items, settings).Accepted?
    ensures Meant(items, settings, AllEffects(items, settings).settings)
    decreases |items|
  {
    hide Effect, WellFormed, Meant;
    if items == [] {
      NothingMeant(settings);
    } else {
      var front, item := items[..|items| - 1], items[|items| - 1];
      assert items == front + [item] && WellFormed(item) && AllWellFormed(front);
      EffectsSnoc(front, item, settings);
      ItemsMean(front, settings);
      MeantOneMore(front, item, settings, AllEffects(front, settings).settings, AllEffects(items, settings).settings);
    }
  }

  lemma NothingMeant(settings: Settings)
    ensures Meant([], settings, settings) && AllEffects([], settings) == Accepted(settings)
  {
  }

  /**
   What a command line that scans sets, by the names of its options: the host and the token are those of their last
   options, the port is the number of its last, every switch is on exactly when it was before or its flag is there, and
   help and version also by the plain arguments of groovy.
   */
  lemma ScanMeans(args: seq<string>, settings: Settings) returns (items: seq<Item>)
    requires Scan(args, settings).Done?
    ensures AllWellFormed(items) && AllWords(items) == args
    ensures Meant(items, settings, Scan(args, settings).settings)
  {
    items := ScanFindsItems(args, settings);
    ItemsMean(items, settings);
  }

  /** The port of the last option, when that is a decimal number. */
  lemma PortMeans(items: seq<Item>, before: Settings, after: Settings, n: int)
    requires Meant(items, before, after) && LastValue(items, {"p", "port"}, None) == Some(Decimal(n))
    ensures after.port == n
  {
    ScanIntReads("", n, "");
    assert "" + Decimal(n) + "" == Decimal(n);
  }

  /** A finished scan never asks for two things that exclude each other; without arguments it asks for help. */
  lemma NoConflictLeft(args: seq<string>, settings: Settings)
    ensures var r := Outcome(args, settings);
            && (args == [] ==> r.Done? && r.settings.help)
            && (args != [] && r.Done? ==>
                  && !(r.settings.kill && r.settings.restart)
                  && !(r.settings.host.Some? && (r.settings.kill || r.settings.restart)))
    ensures args != [] && Scan(args, settings).Done? && Outcome(args, settings).Stopped? ==>
              var s := Scan(args, settings).settings;
              Outcome(args, settings).why
              == if s.kill && s.restart then KillAndRestart else if s.restart then RestartWithHost else KillWithHost
    ensures args != [] && Scan(args, settings).Done? ==>
              var s := Scan(args, settings).settings;
              Outcome(args, settings).Stopped? <==> (s.kill && s.restart) || (s.host.Some? && (s.kill || s.restart))
  {
    hide Scan;
  }

  lemma {:induction false} ScanThrough(items: seq<Item>, rest: seq<string>, settings: Settings)
    requires AllWellFormed(items) && AllEffects(items, settings).Accepted?
    ensures Scan(AllWords(items) + rest, settings)
         == Prepend(AllSlots(items), Scan(rest, AllEffects(items, settings).settings))
  {
    if items == [] {
      assert [] + rest == rest;
      PrependNothing(Scan(rest, settings));
    } else {
      var item, later := items[0], AllWords(items[1..]) + rest;
      ScanItem(item, later, settings);
      hide Apply, Effect, Words, Slots, Scan;
      var next := Effect(item, settings).settings;
      ScanThrough(items[1..], rest, next);
      Assoc(Words(item), AllWords(items[1..]), rest);
      PrependTwice(Slots(item), AllSlots(items[1..]), Scan(rest, AllEffects(items[1..], next).settings));
    }
  }

  lemma PrependNothing(r: Scanned)
    ensures Prepend([], r) == r
  {
    if r.Done? {
      assert [] + r.slots == r.slots;
    }
  }

  lemma FindByName(name: string)
    ensures FindOption(OPTION_INFO, name).Some? <==> KindNamed(name).Some?
    ensures var found := FindOption(OPTION_INFO, name);
            found.Some? ==> found.value.name == name && KindNamed(name) == Some(found.value.kind)
  {
    FindOptionNames(OPTION_INFO, name);
    if FindOption(OPTION_INFO, name).Some? {
      NamedInTable(FindOption(OPTION_INFO, name).value);
    } else {
      NotFound(OPTION_INFO, name);
      NoKindLeft(name);
    }
  }

  lemma {:induction false} NotFound(infos: seq<Info>, name: string)
    requires FindOption(infos, name) == None
    ensures forall i :: 0 <= i < |infos| ==> infos[i].name != name
  {
    if infos != [] {
      NotFound(infos[1..], name);
    }
  }

  lemma NoKindLeft(name: string)
    requires forall i :: 0 <= i < |OPTION_INFO| ==> OPTION_INFO[i].name != name
    ensures KindNamed(name) == None
  {
    TableNames(name);
    hide OPTION_INFO;
  }

  lemma TableNames(name: string)
    requires forall i :: 0 <= i < |OPTION_INFO| ==> OPTION_INFO[i].name != name
    ensures name != "s" && name != "host" && name != "p" && name != "port" && name != "a" && name != "authtoken"
    ensures name != "k" && name != "kill-server" && name != "r" && name != "restart-server" && name != "env"
    ensures name != "env-all" && name != "env-exclude" && name != "q" && name != "quiet" && name != "help"
    ensures name != "h" && name != "" && name != "version" && name != "v"
  {
    TableSize();
    FrontNames();
    BackNames();
    hide OPTION_INFO;
  }

  lemma FrontNames()
    requires |OPTION_INFO| == 20
    ensures OPTION_INFO[0].name == "s" && OPTION_INFO[1].name == "host" && OPTION_INFO[2].name == "p"
    ensures OPTION_INFO[3].name == "port" && OPTION_INFO[4].name == "a" && OPTION_INFO[5].name == "authtoken"
    ensures OPTION_INFO[6].name == "k" && OPTION_INFO[7].name == "kill-server" && OPTION_INFO[8].name == "r"
    ensures OPTION_INFO[9].name == "restart-server"
  {
  }

  lemma BackNames()
    requires |OPTION_INFO| == 20
    ensures OPTION_INFO[10].name == "env" && OPTION_INFO[11].name == "env-all" && OPTION_INFO[12].name == "env-exclude"
    ensures OPTION_INFO[13].name == "q" && OPTION_INFO[14].name == "quiet" && OPTION_INFO[15].name == "help"
    ensures OPTION_INFO[16].name == "h" && OPTION_INFO[17].name == "" && OPTION_INFO[18].name == "version"
    ensures OPTION_INFO[19].name == "v"
  {
  }

  /** Why the scan stops at a -C word behind accepted items: its meaning, or none. */
  lemma ScanStopsAt(items: seq<Item>, name: string, rest: seq<string>, settings: Settings)
    requires AllWellFormed(items) && AllEffects(items, settings).Accepted?
    requires |settings.includeMasks| <= 10 && |settings.excludeMasks| <= 10
    ensures var word := CLIENT_OPTION_PREFIX + name;
            var r := Scan(AllWords(items) + ([word] + rest), settings);
            && (name in {"help", "h", ""} ==> r == Stopped(UsageShown))
            && (name in {"version", "v"} ==> r == Stopped(VersionShown))
            && (KindNamed(name) == None ==> r == Stopped(Unrecognized(word)))
            && (name in {"s", "host", "p", "port", "a", "authtoken", "env", "env-exclude"} && rest == [] ==>
                  r == Stopped(MissingParam(word)))
            && (name in {"p", "port"} && rest != [] && ScanInt(rest[0]) == None ==> r == Stopped(BadPort(rest[0])))
            && (name == "env" && rest != [] && |ValuesOf(items, ENV)| + |settings.includeMasks| == 10 ==>
                  r == Stopped(TooManyMasks(name, rest[0])))
            && (name == "env-exclude" && rest != []
                && |ValuesOf(items, ENV_EXCLUDE)| + |settings.excludeMasks| == 10 ==>
                  r == Stopped(TooManyMasks(name, rest[0])))
  {
    hide OPTION_INFO, FindOption, AllEffects, AllWords, AllSlots, KindNamed, ScanInt, CLIENT_OPTION_PREFIX, ValuesOf;
    EffectsOnMasks(items, settings);
    var word := CLIENT_OPTION_PREFIX + name;
    var next := AllEffects(items, settings).settings;
    ScanThrough(items, [word] + rest, settings);
    NamesOfKinds(name);
    TurnStops(name, if rest == [] then None else Some(rest[0]), next);
    assert ([word] + rest)[0] == word && (rest != [] ==> ([word] + rest)[1] == rest[0]);
    hide OneTurn;
  }

  lemma TurnStops(name: string, following: Option<string>, settings: Settings)
    ensures var turn := OneTurn(CLIENT_OPTION_PREFIX + name, following, settings);
            var kind := KindNamed(name);
            && (kind == Some(HELP) ==> turn == Halt(UsageShown))
            && (kind == Some(VERSION) ==> turn == Halt(VersionShown))
            && (kind == None ==> turn == Halt(Unrecognized(CLIENT_OPTION_PREFIX + name)))
            && (kind.Some? && kind.value in {HOST, PORT, AUTHTOKEN, ENV, ENV_EXCLUDE} && following == None ==>
                  turn == Halt(MissingParam(CLIENT_OPTION_PREFIX + name)))
            && (kind == Some(PORT) && following.Some? && ScanInt(following.value) == None ==>
                  turn == Halt(BadPort(following.value)))
            && (kind == Some(ENV) && following.Some? ==>
                  if |settings.includeMasks| < 10 then turn.Turn?
                  else turn == Halt(TooManyMasks(name, following.value)))
            && (kind == Some(ENV_EXCLUDE) && following.Some? ==>
                  if |settings.excludeMasks| < 10 then turn.Turn?
                  else turn == Halt(TooManyMasks(name, following.value)))
  {
    hide OPTION_INFO, FindOption, KindNamed, ScanInt, IsGroovyHelpOption, IsGroovyVersionOption;
    FindByName(name);
    if FindOption(OPTION_INFO, name).Some? {
      NamedInTable(FindOption(OPTION_INFO, name).value);
    }
    PrefixLength();
    assert NameOf(CLIENT_OPTION_PREFIX + name) == name;
  }

  // ----- the loop over argv -----

  ghost predicate FrontLoaded(masks: seq<Option<string>>) {
    forall i, j :: 0 <= i < j < |masks| && masks[j].Some? ==> masks[i].Some?
  }

  /** A mask array read up to its first NULL. */
  function MaskList(masks: seq<Option<string>>): (list: seq<string>)
    ensures |list| <= |masks|
    ensures forall i :: 0 <= i < |list| ==> masks[i] == Some(list[i])
    ensures |list| < |masks| ==> masks[|list|] == None
  {
    if masks == [] || masks[0].None? then [] else [masks[0].value] + MaskList(masks[1..])
  }

  lemma MaskListUnique(masks: seq<Option<string>>, list: seq<string>)
    requires |list| <= |masks| && forall i :: 0 <= i < |list| ==> masks[i] == Some(list[i])
    requires |list| < |masks| ==> masks[|list|] == None
    ensures MaskList(masks) == list
  {
    var found := MaskList(masks);
    assert |found| >= |list|;
    assert |found| <= |list|;
    assert forall i :: 0 <= i < |list| ==> Some(found[i]) == Some(list[i]);
  }

  /** set_mask_option: false when the array is full. */
  method SetMaskOption(envMask: array<Option<string>>, value: string) returns (room: bool)
    requires envMask.Length == MAX_MASK && FrontLoaded(envMask[..])
    modifies envMask
    ensures FrontLoaded(envMask[..])
    ensures room <==> |MaskList(old(envMask[..]))| < MAX_MASK
    ensures MaskList(envMask[..]) == MaskList(old(envMask[..])) + if room then [value] else []
  {
    ghost var list := MaskList(envMask[..]);
    var p := 0;
    while p < MAX_MASK && envMask[p].Some?
      invariant p <= |list|
    {
      p := p + 1;
    }
    assert p == |list|;
    if p == MAX_MASK {
      return false;
    }
    envMask[p] := Some(value);
    MaskListUnique(envMask[..], list + [value]);
    return true;
  }

  /** what_option: a linear search of the table. */
  method WhatOption(name: string) returns (info: Option<Info>)
    ensures info == FindOption(OPTION_INFO, name)
  {
    hide OPTION_INFO;
    for j := 0 to |OPTION_INFO|
      invariant FindOption(OPTION_INFO, name) == FindOption(OPTION_INFO[j..], name)
    {
      if OPTION_INFO[j].name == name {
        return Some(OPTION_INFO[j]);
      }
    }
    return None;
  }

  class ClientOption {
    var host: Option<string>
    var port: int
    var authtoken: Option<string>
    var kill: bool
    var restart: bool
    var quiet: bool
    var envAll: bool
    const envIncludeMask: array<Option<string>>
    const envExcludeMask: array<Option<string>>
    var help: bool
    var version: bool

    ghost predicate Valid()
      reads this, envIncludeMask, envExcludeMask
    {
      && envIncludeMask != envExcludeMask
      && envIncludeMask.Length == envExcludeMask.Length == MAX_MASK
      && FrontLoaded(envIncludeMask[..]) && FrontLoaded(envExcludeMask[..])
    }

    ghost function Abs(): (s: Settings)
      reads this, envIncludeMask, envExcludeMask
    {
      Settings(host, port, authtoken, kill, restart, quiet, envAll,
               MaskList(envIncludeMask[..]), MaskList(envExcludeMask[..]), help, version)
    }

    constructor ()
      ensures Valid() && fresh(envIncludeMask) && fresh(envExcludeMask)
      ensures Abs() == Settings(None, PORT_NOT_SPECIFIED, None, false, false, false, false, [], [], false, false)
    {
      host, port, authtoken := None, PORT_NOT_SPECIFIED, None;
      kill, restart, quiet, envAll, help, version := false, false, false, false, false, false;
      envIncludeMask := new Option<string>[MAX_MASK](_ => None);
      envExcludeMask := new Option<string>[MAX_MASK](_ => None);
      new;
      MaskListUnique(envIncludeMask[..], []);
      MaskListUnique(envExcludeMask[..], []);
    }

    method AddMask(envMask: array<Option<string>>, name: string, value: string) returns (stop: Option<Stop>)
      requires Valid() && (envMask == envIncludeMask || envMask == envExcludeMask)
      modifies envMask
      ensures Valid()
      ensures var before := MaskList(old(envMask[..]));
              && stop == (if |before| < MAX_MASK then None else Some(TooManyMasks(name, value)))
              && (stop == None ==> MaskList(envMask[..]) == before + [value])
    {
      var room := SetMaskOption(envMask, value);
      stop := if room then None else Some(TooManyMasks(name, value));
    }

    /** The switch on the kind of option. */
    method Set(info: Info, value: string) returns (stop: Option<Stop>)
      requires Valid()
      modifies this, envIncludeMask, envExcludeMask
      ensures Valid()
      ensures match Apply(old(Abs()), info, value)
              case Refused(why) => stop == Some(why)
              case Accepted(next) => stop == None && Abs() == next
    {
      hide ScanInt, MaskList;
      stop := None;
      match info.kind
      case HOST => host := Some(value);
      case PORT => {
        var n := ScanInt(value);
        if n.None? {
          return Some(BadPort(value));
        }
        port := n.value;
      }
      case AUTHTOKEN => authtoken := Some(value);
      case KILL_SERVER => kill := true;
      case RESTART_SERVER => restart := true;
      case QUIET => quiet := true;
      case ENV => stop := AddMask(envIncludeMask, info.name, value);
      case ENV_ALL => envAll := true;
      case ENV_EXCLUDE => stop := AddMask(envExcludeMask, info.name, value);
      case HELP => stop := Some(UsageShown);
      case VERSION => stop := Some(VersionShown);
    }

    method NoteGroovyOptions(arg: string)
      requires Valid()
      modifies `help, `version
      ensures Abs() == Note(old(Abs()), arg)
    {
      if IsGroovyHelpOption(arg) {
        help := true;
      }
      if IsGroovyVersionOption(arg) {
        version := true;
      }
    }

    method Conflicting() returns (stop: Option<Stop>)
      ensures stop == Conflict(Abs())
    {
      if kill && restart {
        return Some(KillAndRestart);
      }
      if host.Some? {
        if restart {
          return Some(RestartWithHost);
        }
        if kill {
          return Some(KillWithHost);
        }
      }
      return None;
    }
  }

  ghost predicate Strings(slots: seq<Option<string>>) {
    forall i :: 0 <= i < |slots| ==> slots[i].Some?
  }

  ghost function Values(slots: seq<Option<string>>): (args: seq<string>)
    requires Strings(slots)
    ensures |args| == |slots|
    ensures forall i :: 0 <= i < |args| ==> args[i] == slots[i].value
  {
    seq(|slots|, i requires 0 <= i < |slots| => slots[i].value)
  }

  lemma ScanFrom(args: seq<string>, i: nat, settings: Settings)
    requires i < |args|
    ensures Scan(args[i..], settings)
         == match OneTurn(args[i], if i + 1 < |args| then Some(args[i + 1]) else None, settings)
            case Halt(why) => Stopped(why)
            case Turn(slots, next) => Prepend(slots, Scan(args[i + |slots|..], next))
  {
    var t := args[i..];
    hide OneTurn;
    forall n | 0 <= n <= |t| ensures t[n..] == args[i + n..] {
    }
  }

  lemma PrependTwice(a: seq<Option<string>>, b: seq<Option<string>>, r: Scanned)
    ensures Prepend(a, Prepend(b, r)) == Prepend(a + b, r)
  {
    if r.Done? {
      Assoc(a, b, r.slots);
    }
  }

  ghost predicate Replaced(before: seq<Option<string>>, after: seq<Option<string>>, i: nat,
                           slots: seq<Option<string>>)
  {
    && i + |slots| <= |before| == |after|
    && (forall j :: i <= j < i + |slots| ==> after[j] == slots[j - i])
    && (forall j :: 0 <= j < |before| && !(i <= j < i + |slots|) ==> after[j] == before[j])
  }

  function EntryAt(args: seq<string>, i: nat): Option<string> {
    if i < |args| then Some(args[i]) else None
  }

  /**
   The invariant of the loop: the entries before `i` are done, those from `i` on are untouched,
   and scanning the rest from `settings` completes the result.
   */
  ghost predicate Progress(result: Scanned, args: seq<string>, program: Option<string>,
                           slots: seq<Option<string>>, i: nat, settings: Settings, entries: seq<Option<string>>)
  {
    && 1 <= i <= |entries| == |args| + 1 && |slots| == i - 1
    && result == Prepend(slots, Scan(args[i - 1..], settings))
    && ScannedTo(args, program, slots, i, entries)
  }

  ghost predicate ScannedTo(args: seq<string>, program: Option<string>, slots: seq<Option<string>>, i: nat,
                            entries: seq<Option<string>>)
    requires 1 <= i <= |entries| == |args| + 1 && |slots| == i - 1
  {
    && entries[0] == program
    && (forall j :: 1 <= j < i ==> entries[j] == slots[j - 1])
    && (forall j :: i <= j < |entries| ==> entries[j] == Some(args[j - 1]))
  }

  lemma ScannedFurther(args: seq<string>, program: Option<string>, slots: seq<Option<string>>, i: nat,
                       before: seq<Option<string>>, added: seq<Option<string>>, after: seq<Option<string>>)
    requires 1 <= i <= |before| == |args| + 1 && |slots| == i - 1
    requires ScannedTo(args, program, slots, i, before) && Replaced(before, after, i, added)
    ensures ScannedTo(args, program, slots + added, i + |added|, after)
  {
  }

  lemma ScanStarts(entries: seq<Option<string>>, args: seq<string>, settings: Settings)
    requires |entries| >= 1 && Strings(entries[1..]) && args == Values(entries[1..])
    ensures Progress(Scan(args, settings), args, entries[0], [], 1, settings, entries)
  {
    assert args[0..] == args;
    hide Scan;
    var r := Scan(args, settings);
    if r.Done? {
      assert [] + r.slots == r.slots;
    }
  }

  lemma ScannedEntry(result: Scanned, args: seq<string>, program: Option<string>, slots: seq<Option<string>>,
                     i: nat, settings: Settings, entries: seq<Option<string>>)
    requires Progress(result, args, program, slots, i, settings, entries) && i < |entries|
    ensures i <= |args| && entries[i] == Some(args[i - 1])
    ensures EntryAt(args, i) == if i + 1 < |entries| then entries[i + 1] else None
    ensures i + 1 < |entries| ==> entries[i + 1].Some?
  {
    hide Scan, Prepend;
  }

  lemma ScanContinues(result: Scanned, args: seq<string>, program: Option<string>, slots: seq<Option<string>>,
                      i: nat, settings: Settings, before: seq<Option<string>>,
                      turn: Turn, after: seq<Option<string>>)
    requires Progress(result, args, program, slots, i, settings, before) && i < |before|
    requires turn == OneTurn(args[i - 1], EntryAt(args, i), settings)
    requires turn.Turn? && Replaced(before, after, i, turn.slots)
    ensures Progress(result, args, program, slots + turn.slots, i + |turn.slots|, turn.settings, after)
  {
    ScanFrom(args, i - 1, settings);
    ScannedFurther(args, program, slots, i, before, turn.slots, after);
    hide OneTurn, Scan, ScannedTo, Prepend;
    PrependTwice(slots, turn.slots, Scan(args[i - 1 + |turn.slots|..], turn.settings));
  }

  lemma ScanHalts(result: Scanned, args: seq<string>, program: Option<string>, slots: seq<Option<string>>,
                  i: nat, settings: Settings, before: seq<Option<string>>, final: Settings,
                  after: seq<Option<string>>)
    requires Progress(result, args, program, slots, i, settings, before) && i < |before|
    requires OneTurn(args[i - 1], EntryAt(args, i), settings).Halt?
    ensures LeftBy(result, Some(OneTurn(args[i - 1], EntryAt(args, i), settings).why), final, program, after)
  {
    ScanFrom(args, i - 1, settings);
    hide OneTurn, Scan, ScannedTo;
  }

  lemma ScanEnds(result: Scanned, args: seq<string>, program: Option<string>, slots: seq<Option<string>>,
                 settings: Settings, entries: seq<Option<string>>)
    requires Progress(result, args, program, slots, |entries|, settings, entries)
    ensures LeftBy(result, None, settings, program, entries)
  {
    hide OneTurn;
    assert args[|entries| - 1..] == [] && slots + [] == slots;
    assert entries == [program] + slots;
  }

  /** The state that a scan with result `r` leaves behind. */
  ghost predicate LeftBy(r: Scanned, stop: Option<Stop>, settings: Settings, program: Option<string>,
                         entries: seq<Option<string>>)
  {
    match r
    case Stopped(why) => stop == Some(why)
    case Done(slots, final) => stop == None && settings == final && entries == [program] + slots
  }

  /** The body of the loop: consumes one or two entries from `i` on. */
  method ScanTurn(option: ClientOption, argv: array<Option<string>>, i: nat) returns (stop: Option<Stop>, n: nat)
    requires option.Valid() && argv != option.envIncludeMask && argv != option.envExcludeMask
    requires i < argv.Length && argv[i].Some? && (i + 1 < argv.Length ==> argv[i + 1].Some?)
    modifies option, option.envIncludeMask, option.envExcludeMask, argv
    ensures option.Valid()
    ensures var turn := OneTurn(old(argv[i].value), if i + 1 < argv.Length then old(argv[i + 1]) else None,
                                old(option.Abs()));
            && stop == (if turn.Halt? then Some(turn.why) else None)
            && (turn.Turn? ==> option.Abs() == turn.settings
                               && n == i + |turn.slots| <= argv.Length
                               && Replaced(old(argv[..]), argv[..], i, turn.slots))
  {
    hide Apply, Note, FindOption, OPTION_INFO, IsClientOption, MaskList, FrontLoaded, NameOf;
    stop, n := None, i + 1;
    var arg := argv[i].value;
    option.NoteGroovyOptions(arg);
    if IsClientOption(arg) {
      argv[i] := None;
      var info := WhatOption(NameOf(arg));
      if info.None? {
        return Some(Unrecognized(arg)), n;
      }
      var value := "";
      if info.value.takeValue {
        if i >= argv.Length - 1 {
          return Some(MissingParam(arg)), n;
        }
        n := n + 1;
        value := argv[i + 1].value;
        argv[i + 1] := None;
      }
      stop := option.Set(info.value, value);
    }
  }

  /** The loop of scan_options. */
  method ScanArgs(option: ClientOption, argv: array<Option<string>>) returns (stop: Option<Stop>)
    requires option.Valid() && argv != option.envIncludeMask && argv != option.envExcludeMask
    requires argv.Length > 1 && Strings(argv[1..])
    modifies option, option.envIncludeMask, option.envExcludeMask, argv
    ensures option.Valid()
    ensures LeftBy(Scan(Values(old(argv[1..])), old(option.Abs())), stop, option.Abs(), old(argv[0]), argv[..])
  {
    hide *;
    ghost var args, program := Values(argv[1..]), argv[0];
    ghost var result := Scan(args, option.Abs());
    ghost var slots: seq<Option<string>> := [];
    assert argv[..][1..] == argv[1..];
    ScanStarts(argv[..], args, option.Abs());
    stop := None;
    var i := 1;
    while i < argv.Length
      invariant option.Valid() && stop == None
      invariant 1 <= i <= argv.Length
      invariant Progress(result, args, program, slots, i, option.Abs(), argv[..])
    {
      ghost var before, settings := argv[..], option.Abs();
      ScannedEntry(result, args, program, slots, i, settings, before);
      ghost var turn := OneTurn(args[i - 1], EntryAt(args, i), settings);
      var n;
      stop, n := ScanTurn(option, argv, i);
      ghost var after := argv[..];
      if stop.Some? {
        ScanHalts(result, args, program, slots, i, settings, before, option.Abs(), after);
        return;
      }
      ScanContinues(result, args, program, slots, i, settings, before, turn, after);
      slots, i := slots + turn.slots, n;
    }
    ScanEnds(result, args, program, slots, option.Abs(), argv[..]);
  }

  /** scan_options. argv[0] is the program. */
  method ScanOptions(option: ClientOption, argv: array<Option<string>>) returns (stop: Option<Stop>)
    requires option.Valid() && argv != option.envIncludeMask && argv != option.envExcludeMask
    requires argv.Length >= 1 && Strings(argv[1..])
    modifies option, option.envIncludeMask, option.envExcludeMask, argv
    ensures option.Valid()
    ensures LeftBy(Outcome(Values(old(argv[1..])), old(option.Abs())), stop, option.Abs(), old(argv[0]), argv[..])
  {
    hide Scan, Conflict, MaskList, FrontLoaded;
    if argv.Length <= 1 {
      assert argv[..] == [argv[0]] + [];
      option.help := true;
      return None;
    }
    stop := ScanArgs(option, argv);
    if stop == None {
      stop := option.Conflicting();
    }
  }
}
