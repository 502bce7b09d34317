/** EnvironmentVariables and CurrentDirHolder: the state all sessions of the server share. */
module Environment {
  import opened Text

  // ----- EnvironmentVariables -----

  type Cache = map<string, Option<string>>

  /** None, Java's null, when there is no '='. */
  function ValueOf(envVar: string): Option<string> {
    var i := IndexOf(envVar, '=');
    if i < |envVar| then Some(envVar[i + 1..]) else None
  }

  /** getenv(name): a null in the cache counts as absent. */
  function ByName(original: map<string, string>, cache: Cache, name: string): Option<string> {
    if name in cache && cache[name].Some? then cache[name]
    else if name in original then Some(original[name]) else None
  }

  /** getenv(): the original environment overwritten by the cache, nulls included. */
  function Overlaid(original: map<string, string>, cache: Cache): Cache {
    (map name | name in original :: Some(original[name])) + cache
  }

  /** Looking a name up in the full map. */
  function InMap(original: map<string, string>, cache: Cache, name: string): Option<string> {
    var all := Overlaid(original, cache);
    if name in all then all[name] else None
  }

  class EnvironmentVariables {
    const original: map<string, string>
    var cache: Cache

    constructor (original: map<string, string>)
      ensures this.original == original && cache == map[]
    {
      this.original, cache := original, map[];
    }

    method Put(envVar: string)
      modifies this
      ensures cache == old(cache)[EnvName(envVar) := ValueOf(envVar)]
    {
      cache := cache[EnvName(envVar) := ValueOf(envVar)];
    }

    method PutAll(envVars: seq<string>)
      modifies this
      ensures cache == AfterPuts(old(cache), envVars)
    {
      assert envVars[0..] == envVars;
      for i := 0 to |envVars|
        invariant AfterPuts(old(cache), envVars) == AfterPuts(cache, envVars[i..])
      {
        assert envVars[i..][1..] == envVars[i + 1..];
        Put(envVars[i]);
      }
    }
  }

  function AfterPuts(cache: Cache, envVars: seq<string>): Cache
    decreases |envVars|
  {
    if envVars == [] then cache else AfterPuts(cache[EnvName(envVars[0]) := ValueOf(envVars[0])], envVars[1..])
  }

  /** The value that the last put of a name gave it; None when it was never put. */
  function LastPut(envVars: seq<string>, name: string): Option<Option<string>> {
    if envVars == [] then None
    else if EnvName(envVars[|envVars| - 1]) == name then Some(ValueOf(envVars[|envVars| - 1]))
    else LastPut(envVars[..|envVars| - 1], name)
  }

  lemma {:induction false} AfterPutsSnoc(cache: Cache, envVars: seq<string>, envVar: string)
    ensures AfterPuts(cache, envVars + [envVar]) == AfterPuts(cache, envVars)[EnvName(envVar) := ValueOf(envVar)]
    decreases |envVars|
  {
    if envVars == [] {
      assert [] + [envVar] == [envVar] && [envVar][1..] == [];
    } else {
      AfterPutsSnoc(cache[EnvName(envVars[0]) := ValueOf(envVars[0])], envVars[1..], envVar);
      assert (envVars + [envVar])[1..] == envVars[1..] + [envVar];
    }
  }

  lemma {:induction false} CacheHoldsLastPuts(envVars: seq<string>, name: string)
    ensures var cache := AfterPuts(map[], envVars);
            && (name in cache <==> LastPut(envVars, name).Some?)
            && (name in cache ==> cache[name] == LastPut(envVars, name).value)
    decreases |envVars|
  {
    if envVars != [] {
      var before, last := envVars[..|envVars| - 1], envVars[|envVars| - 1];
      CacheHoldsLastPuts(before, name);
      AfterPutsSnoc(map[], before, last);
      assert before + [last] == envVars;
      hide AfterPuts, EnvName, ValueOf;
    }
  }

  /** After any puts, both lookups say what the last put of the name said, else what the original environment says. */
  lemma LookupsAfterPuts(original: map<string, string>, envVars: seq<string>, name: string)
    ensures var cache := AfterPuts(map[], envVars);
            var orig := if name in original then Some(original[name]) else None;
            && ByName(original, cache, name)
               == (match LastPut(envVars, name)
                   case Some(Some(value)) => Some(value)
                   case _ => orig)
            && InMap(original, cache, name)
               == (match LastPut(envVars, name)
                   case Some(value) => value
                   case None => orig)
  {
    CacheHoldsLastPuts(envVars, name);
    hide AfterPuts, LastPut;
  }

  /** They disagree exactly on an original name whose last put had no '='. */
  lemma LookupsAgreeIff(original: map<string, string>, envVars: seq<string>, name: string)
    ensures var cache := AfterPuts(map[], envVars);
            ByName(original, cache, name) == InMap(original, cache, name)
            <==> !(LastPut(envVars, name) == Some(None) && name in original)
  {
    LookupsAfterPuts(original, envVars, name);
    hide AfterPuts, LastPut, ByName, InMap;
  }

  lemma {:induction false} PutsWithEquals(envVars: seq<string>, name: string)
    requires forall i :: 0 <= i < |envVars| ==> '=' in envVars[i]
    ensures LastPut(envVars, name) != Some(None)
    decreases |envVars|
  {
    if envVars != [] {
      assert '=' in envVars[|envVars| - 1];
      PutsWithEquals(envVars[..|envVars| - 1], name);
    }
  }

  /** For NAME=VALUE strings, the value empty or holding '=' itself, the two lookups agree on every name. */
  lemma LookupsAgree(original: map<string, string>, envVars: seq<string>, name: string)
    requires forall i :: 0 <= i < |envVars| ==> '=' in envVars[i]
    ensures var cache := AfterPuts(map[], envVars);
            ByName(original, cache, name) == InMap(original, cache, name)
  {
    PutsWithEquals(envVars, name);
    LookupsAgreeIff(original, envVars, name);
  }

  /** A put of NAME=VALUE is what both lookups find, whatever was put before, and other names are as they were. */
  lemma PutIsFound(original: map<string, string>, envVars: seq<string>, name: string, value: string, other: string)
    requires '=' !in name && name != other
    ensures var before, cache := AfterPuts(map[], envVars), AfterPuts(map[], envVars + [name + "=" + value]);
            && ByName(original, cache, name) == InMap(original, cache, name) == Some(value)
            && ByName(original, cache, other) == ByName(original, before, other)
            && InMap(original, cache, other) == InMap(original, before, other)
  {
    var s := name + "=" + value;
    EnvNameOf(name, value);
    assert s[|name| + 1..] == value;
    AfterPutsSnoc(map[], envVars, s);
  }

  // ----- CurrentDirHolder -----

  /** What the process started with. */
  datatype Original = Original(userDir: string, pwd: Option<string>)

  datatype Dirs = Dirs(currentDir: Option<string>, userDir: string, nativeDir: string, pwd: Option<Option<string>>)

  /** Whether setDir is refused with a GServIllegalStateException. */
  predicate Refuses(d: Dirs, newDir: string) {
    d.currentDir.Some? && d.currentDir.value != newDir
  }

  /** `pwd` is the cached PWD: what put("PWD=...") made of it. */
  function DirSet(d: Dirs, newDir: string): Dirs {
    if d.currentDir == Some(newDir) || Refuses(d, newDir) then d
    else Dirs(Some(newDir), newDir, newDir, Some(Some(newDir)))
  }

  /** Groovy prints a null PWD as "null". */
  function PwdText(o: Original): string {
    if o.pwd.Some? then o.pwd.value else "null"
  }

  function DirReset(o: Original, d: Dirs): Dirs {
    if d.currentDir.None? then d else Dirs(None, o.userDir, o.userDir, Some(Some(PwdText(o))))
  }

  function CachedPwd(cache: Cache): Option<Option<string>> {
    if "PWD" in cache then Some(cache["PWD"]) else None
  }

  lemma PutPwd(cache: Cache, dir: string)
    ensures CachedPwd(cache[EnvName("PWD=" + dir) := ValueOf("PWD=" + dir)]) == Some(Some(dir))
  {
    var s := "PWD=" + dir;
    assert s[3] == '=' && s[0] == 'P' && s[1] == 'W' && s[2] == 'D';
    assert IndexOf(s, '=') == 3;
    assert s[..3] == "PWD" && s[4..] == dir;
  }

  class CurrentDirHolder {
    const original: Original
    const env: EnvironmentVariables
    var currentDir: Option<string>
    var userDir: string      // System.properties['user.dir']
    var nativeDir: string    // set by chdir

    ghost function Abs(): Dirs
      reads this, env
    {
      Dirs(currentDir, userDir, nativeDir, CachedPwd(env.cache))
    }

    constructor (original: Original, env: EnvironmentVariables)
      ensures this.original == original && this.env == env
      ensures Abs() == Dirs(None, original.userDir, original.userDir, CachedPwd(env.cache))
    {
      this.original, this.env := original, env;
      currentDir, userDir, nativeDir := None, original.userDir, original.userDir;
    }

    method SetDir(newDir: string) returns (ok: bool)
      modifies this, env
      ensures ok == !Refuses(old(Abs()), newDir)
      ensures Abs() == DirSet(old(Abs()), newDir)
    {
      if currentDir == Some(newDir) {
        return true;
      }
      if currentDir.Some? {
        return false;
      }
      userDir := newDir;
      nativeDir := newDir;
      PutPwd(env.cache, newDir);
      env.Put("PWD=" + newDir);
      currentDir := Some(newDir);
      ok := true;
    }

    method Reset()
      modifies this, env
      ensures Abs() == DirReset(original, old(Abs()))
    {
      if currentDir.None? {
        return;
      }
      userDir := original.userDir;
      var pwd := PwdText(original);
      PutPwd(env.cache, pwd);
      env.Put("PWD=" + pwd);
      nativeDir := original.userDir;
      currentDir := None;
    }
  }

  // ----- GroovyInvokeHandler.run before and after the script -----

  /** Entering run(): an absent or empty cwd leaves the directory alone; a refusal is not to be reset. */
  method Enter(holder: CurrentDirHolder, cwd: Option<string>) returns (accepted: bool, shouldResetCurrentDir: bool)
    modifies holder, holder.env
    ensures cwd == None || cwd == Some("") ==> accepted && !shouldResetCurrentDir && holder.Abs() == old(holder.Abs())
    ensures cwd.Some? && cwd.value != "" ==>
              && holder.Abs() == DirSet(old(holder.Abs()), cwd.value)
              && accepted == shouldResetCurrentDir == !Refuses(old(holder.Abs()), cwd.value)
  {
    accepted, shouldResetCurrentDir := true, false;
    if cwd.Some? && cwd.value != "" {
      shouldResetCurrentDir := true;
      accepted := holder.SetDir(cwd.value);
      if !accepted {
        shouldResetCurrentDir := false;
      }
    }
  }

  /** Leaving run(): `illegalState` says that the script itself raised a GServIllegalStateException. */
  method Leave(holder: CurrentDirHolder, shouldResetCurrentDir: bool, illegalState: bool)
    modifies holder, holder.env
    ensures holder.Abs() == if shouldResetCurrentDir && !illegalState then DirReset(holder.original, old(holder.Abs()))
                            else old(holder.Abs())
  {
    var reset := shouldResetCurrentDir;
    if illegalState {
      reset := false;
    }
    if reset {
      holder.Reset();
    }
  }

  // ----- runs of many sessions -----

  /**
   A session asks for its directory when it starts, and then puts its environment entries; when its script is done
   it resets, unless the script raised a GServIllegalStateException, which the handler takes for a refusal. A session
   without a directory asks for "".
   */
  datatype Event = Begins(id: nat, dir: string) | Puts(envVar: string) | Ends(id: nat, illegalState: bool)

  /** `holders` are the sessions that were accepted and have not ended. */
  datatype World = World(dirs: Dirs, holders: map<nat, string>)

  predicate Possible(w: World, e: Event) {
    match e
    case Begins(id, _) => id !in w.holders
    case Puts(_) => true
    case Ends(id, _) => id in w.holders
  }

  function PwdAfter(pwd: Option<Option<string>>, envVar: string): Option<Option<string>> {
    if EnvName(envVar) == "PWD" then Some(ValueOf(envVar)) else pwd
  }

  lemma PutShowsInPwd(cache: Cache, envVar: string)
    ensures CachedPwd(cache[EnvName(envVar) := ValueOf(envVar)]) == PwdAfter(CachedPwd(cache), envVar)
  {
  }

  function Happens(o: Original, w: World, e: Event): World {
    match e
    case Begins(id, dir) =>
      if dir == "" || Refuses(w.dirs, dir) then w else World(DirSet(w.dirs, dir), w.holders[id := dir])
    case Puts(envVar) => w.(dirs := w.dirs.(pwd := PwdAfter(w.dirs.pwd, envVar)))
    case Ends(id, illegalState) =>
      World(if illegalState then w.dirs else DirReset(o, w.dirs), w.holders - {id})
  }

  function Start(o: Original): World {
    World(Dirs(None, o.userDir, o.userDir, None), map[])
  }

  function Played(o: Original, w: World, events: seq<Event>): Option<World>
    decreases |events|
  {
    if events == [] then Some(w)
    else if Possible(w, events[0]) then Played(o, Happens(o, w, events[0]), events[1..])
    else None
  }

  /** currentDir, user.dir and the native directory say the same. */
  ghost predicate Agreeing(o: Original, d: Dirs) {
    match d.currentDir
    case Some(dir) => d.userDir == dir && d.nativeDir == dir
    case None => d.userDir == o.userDir && d.nativeDir == o.userDir
  }

  /** So does PWD. */
  ghost predicate PwdAgrees(o: Original, d: Dirs) {
    match d.currentDir
    case Some(dir) => d.pwd == Some(Some(dir))
    case None => d.pwd == None || d.pwd == Some(Some(PwdText(o)))
  }

  ghost predicate NoPwdPut(events: seq<Event>) {
    forall i :: 0 <= i < |events| && events[i].Puts? ==> EnvName(events[i].envVar) != "PWD"
  }

  /** The directories agree after every call, whatever sessions overlap; PWD too, if no session puts one of its own. */
  lemma {:induction false} DirsAgree(o: Original, w: World, events: seq<Event>, end: World)
    requires Agreeing(o, w.dirs) && Played(o, w, events) == Some(end)
    ensures Agreeing(o, end.dirs)
    ensures PwdAgrees(o, w.dirs) && NoPwdPut(events) ==> PwdAgrees(o, end.dirs)
    decreases |events|
  {
    if events != [] {
      var next := Happens(o, w, events[0]);
      assert Agreeing(o, next.dirs);
      assert PwdAgrees(o, w.dirs) && NoPwdPut(events) ==> PwdAgrees(o, next.dirs) && NoPwdPut(events[1..]);
      hide Happens, Agreeing, Possible, PwdAgrees, NoPwdPut;
      DirsAgree(o, next, events[1..], end);
    }
  }

  /** An entry of a session moves PWD away exactly when it is a PWD entry for another directory. */
  lemma PutKeepsPwdIff(o: Original, w: World, envVar: string)
    requires PwdAgrees(o, w.dirs) && w.dirs.currentDir.Some?
    ensures PwdAgrees(o, Happens(o, w, Puts(envVar)).dirs)
       <==> EnvName(envVar) != "PWD" || ValueOf(envVar) == w.dirs.currentDir
  {
  }

  /** Every accepted session runs in its own directory, and without sessions the original is back. */
  ghost predicate Faithful(w: World) {
    && (forall id :: id in w.holders ==> w.dirs.currentDir == Some(w.holders[id]))
    && (w.holders == map[] ==> w.dirs.currentDir == None)
  }

  /**
   A session is refused exactly when a running one holds another directory, and then it leaves everything as it was
   for whatever follows.
   */
  lemma RefusedIff(o: Original, w: World, id: nat, dir: string, later: seq<Event>)
    requires Faithful(w) && Possible(w, Begins(id, dir)) && dir != ""
    ensures Refuses(w.dirs, dir) <==> exists other :: other in w.holders && w.holders[other] != dir
    ensures Refuses(w.dirs, dir) ==> Played(o, w, [Begins(id, dir)] + later) == Played(o, w, later)
  {
    assert ([Begins(id, dir)] + later)[1..] == later;
    if w.holders != map[] {
      var other :| other in w.holders;
      assert w.dirs.currentDir == Some(w.holders[other]);
    }
  }

  lemma BeginKeepsFaithful(o: Original, w: World, id: nat, dir: string)
    requires Faithful(w) && Possible(w, Begins(id, dir))
    ensures Faithful(Happens(o, w, Begins(id, dir)))
  {
    if dir != "" && !Refuses(w.dirs, dir) {
      var next := Happens(o, w, Begins(id, dir));
      assert id in next.holders;
    }
  }

  /**
   An end keeps the directories faithful exactly when it is the last session's and resets, or an earlier one's
   and does not: a reset pulls the directory away from whoever shares it, a missing one leaves it behind.
   */
  lemma EndKeepsFaithfulIff(o: Original, w: World, id: nat, illegalState: bool)
    requires Faithful(w) && Possible(w, Ends(id, illegalState))
    ensures Faithful(Happens(o, w, Ends(id, illegalState))) <==> (illegalState <==> w.holders.Keys != {id})
  {
    var next := Happens(o, w, Ends(id, illegalState));
    assert next.holders.Keys == w.holders.Keys - {id};
    if w.holders.Keys == {id} {
      assert next.holders.Keys == {};
      assert next.holders == map[];
    } else {
      assert w.holders.Keys == {id} + (w.holders.Keys - {id});
      var other :| other in w.holders.Keys - {id};
      assert other in next.holders && next.holders[other] == w.holders[other];
    }
  }

  /** No session asks for a directory that a running one holds, and no script raises the illegal-state error. */
  ghost predicate Separate(o: Original, w: World, events: seq<Event>)
    decreases |events|
  {
    events == [] || (
      && Possible(w, events[0])
      && (match events[0]
          case Begins(_, dir) => dir !in w.holders.Values
          case Puts(_) => true
          case Ends(_, illegalState) => !illegalState)
      && Separate(o, Happens(o, w, events[0]), events[1..]))
  }

  ghost predicate AtMostOne(w: World) {
    forall i, j :: i in w.holders && j in w.holders ==> i == j
  }

  lemma SeparateStep(o: Original, w: World, e: Event)
    requires Faithful(w) && AtMostOne(w) && Possible(w, e)
    requires match e
             case Begins(_, dir) => dir !in w.holders.Values
             case Puts(_) => true
             case Ends(_, illegalState) => !illegalState
    ensures Faithful(Happens(o, w, e)) && AtMostOne(Happens(o, w, e))
  {
    match e
    case Begins(id, dir) =>
      BeginKeepsFaithful(o, w, id, dir);
      if w.holders != map[] && dir != "" {
        var other :| other in w.holders;
        assert w.holders[other] in w.holders.Values;
        assert Refuses(w.dirs, dir);
      }
    case Puts(_) =>
    case Ends(id, _) =>
      assert w.holders.Keys == {id};
      EndKeepsFaithfulIff(o, w, id, false);
  }

  /**
   If no two overlapping sessions ask for the same directory, then at every moment at most one holds the
   directory, it is that session's own, and the original is restored when it ends.
   */
  lemma {:induction false} SeparateSessions(o: Original, w: World, events: seq<Event>)
    requires Faithful(w) && AtMostOne(w) && Separate(o, w, events)
    ensures Played(o, w, events).Some?
    ensures var end := Played(o, w, events).value; Faithful(end) && AtMostOne(end)
    decreases |events|
  {
    if events != [] {
      SeparateStep(o, w, events[0]);
      hide Happens, Faithful, AtMostOne, Possible;
      SeparateSessions(o, Happens(o, w, events[0]), events[1..]);
    }
  }

  /**
   From the start of the server, over every run of sessions: the directories agree, PWD too unless a session puts
   its own, and as long as overlapping sessions ask for different directories and no script raises the illegal-state
   error, whoever holds the directory is alone with its own, and nobody leaves it behind.
   */
  lemma FromTheStart(o: Original, events: seq<Event>, end: World)
    requires Played(o, Start(o), events) == Some(end)
    ensures Agreeing(o, end.dirs) && (NoPwdPut(events) ==> PwdAgrees(o, end.dirs))
    ensures Separate(o, Start(o), events) ==> Faithful(end) && AtMostOne(end)
  {
    DirsAgree(o, Start(o), events, end);
    if Separate(o, Start(o), events) {
      SeparateSessions(o, Start(o), events);
    }
  }

  /**
   PWD itself, once nobody holds the directory any more, is what it was exactly when it was set at the start, or no
   session ever held a directory: else it has become the text "null".
   */
  lemma PwdRestoredIff(original: map<string, string>, userDir: string, events: seq<Event>, end: World, cache: Cache)
    requires var o := AtStart(original, userDir); Played(o, Start(o), events) == Some(end)
    requires NoPwdPut(events) && end.dirs.currentDir == None && CachedPwd(cache) == end.dirs.pwd
    ensures ByName(original, cache, "PWD") == AtStart(original, userDir).pwd
       <==> "PWD" in original || end.dirs.pwd == None
    ensures "PWD" !in original && end.dirs.pwd != None ==> ByName(original, cache, "PWD") == Some("null")
  {
    FromTheStart(AtStart(original, userDir), events, end);
  }

  // ----- the runs on the objects themselves -----

  /** One event on the server's objects; `holders` are the sessions that will reset, with their directories. */
  method PlayOne(holder: CurrentDirHolder, holders: map<nat, string>, event: Event) returns (next: map<nat, string>)
    requires Possible(World(holder.Abs(), holders), event)
    modifies holder, holder.env
    ensures World(holder.Abs(), next) == Happens(holder.original, World(old(holder.Abs()), holders), event)
  {
    match event
    case Begins(id, dir) =>
      var accepted, shouldReset := Enter(holder, Some(dir));
      next := if shouldReset then holders[id := dir] else holders;
    case Puts(envVar) =>
      PutShowsInPwd(holder.env.cache, envVar);
      holder.env.Put(envVar);
      next := holders;
    case Ends(id, illegalState) =>
      Leave(holder, true, illegalState);
      next := holders - {id};
  }

  /** Any run of sessions on one CurrentDirHolder and its EnvironmentVariables. */
  method PlayAll(holder: CurrentDirHolder, events: seq<Event>) returns (holders: map<nat, string>)
    requires Played(holder.original, World(holder.Abs(), map[]), events).Some?
    modifies holder, holder.env
    ensures Played(holder.original, World(old(holder.Abs()), map[]), events) == Some(World(holder.Abs(), holders))
  {
    holders := map[];
    ghost var start := World(holder.Abs(), holders);
    assert events[0..] == events;
    hide Happens, Possible;
    for i := 0 to |events|
      invariant Played(holder.original, start, events)
             == Played(holder.original, World(holder.Abs(), holders), events[i..])
    {
      assert events[i..][1..] == events[i + 1..];
      holders := PlayOne(holder, holders, events[i]);
    }
  }

  function AtStart(original: map<string, string>, userDir: string): Original {
    Original(userDir, if "PWD" in original then Some(original["PWD"]) else None)
  }

  /** The server's life: its objects are made, and sessions come and go. */
  method ServerRun(original: map<string, string>, userDir: string, events: seq<Event>)
    returns (holder: CurrentDirHolder, holders: map<nat, string>)
    requires Played(AtStart(original, userDir), Start(AtStart(original, userDir)), events).Some?
    ensures fresh(holder) && holder.original == AtStart(original, userDir)
    ensures var o := holder.original;
            && Played(o, Start(o), events) == Some(World(holder.Abs(), holders))
            && Agreeing(o, holder.Abs()) && (NoPwdPut(events) ==> PwdAgrees(o, holder.Abs()))
            && (Separate(o, Start(o), events) ==>
                  Faithful(World(holder.Abs(), holders)) && AtMostOne(World(holder.Abs(), holders)))
  {
    hide Played, Agreeing, PwdAgrees, Separate, Faithful, AtMostOne, NoPwdPut;
    var env := new EnvironmentVariables(original);
    holder := new CurrentDirHolder(AtStart(original, userDir), env);
    holders := PlayAll(holder, events);
    FromTheStart(holder.original, events, World(holder.Abs(), holders));
  }

  /**
   Sharing breaks it: two sessions in one directory, the first ends, and a third is accepted in another
   directory while the second still runs.
   */
  lemma SharingMovesASession(o: Original, dir: string, other: string) returns (end: World)
    requires dir != other && dir != "" && other != ""
    ensures Played(o, Start(o), [Begins(1, dir), Begins(2, dir), Ends(1, false), Begins(3, other)]) == Some(end)
    ensures 2 in end.holders && end.holders[2] == dir && end.dirs.currentDir == Some(other) && !Faithful(end)
  {
    var s := Start(o);
    var a := Happens(o, s, Begins(1, dir));
    var b := Happens(o, a, Begins(2, dir));
    var c := Happens(o, b, Ends(1, false));
    end := Happens(o, c, Begins(3, other));
    var events := [Begins(1, dir), Begins(2, dir), Ends(1, false), Begins(3, other)];
    assert events[1..] == [Begins(2, dir), Ends(1, false), Begins(3, other)];
    assert events[1..][1..] == [Ends(1, false), Begins(3, other)];
    assert events[1..][1..][1..] == [Begins(3, other)];
    assert events[1..][1..][1..][1..] == [];
    assert 2 in end.holders;
    hide Happens, Faithful;
    assert Played(o, c, [Begins(3, other)]) == Some(end);
    assert Played(o, b, [Ends(1, false), Begins(3, other)]) == Some(end);
    assert Played(o, a, [Begins(2, dir), Ends(1, false), Begins(3, other)]) == Some(end);
  }
}
