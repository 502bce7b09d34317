/** GroovyInvokeHandler.removeClasspathFromArgs: the classpath options are taken out of the arguments. */
module Classpath {
  import opened Text
  import Request

  const PATH_SEPARATOR: char := ':'

  predicate IsClasspathOption(s: string) {
    s == "--classpath" || s == "-cp" || s == "-classpath"
  }

  // ----- java.lang.String.split with one separator -----

  function AllParts(s: string): (parts: seq<string>)
    ensures parts != []
  {
    var i := IndexOf(s, PATH_SEPARATOR);
    if i == |s| then [s] else [s[..i]] + AllParts(s[i + 1..])
  }

  /** Trailing empty parts are dropped. */
  function DropEmpties(parts: seq<string>): seq<string> {
    if parts != [] && parts[|parts| - 1] == "" then DropEmpties(parts[..|parts| - 1]) else parts
  }

  /** A string without separators is its only part, even the empty one. */
  function Split(s: string): seq<string> {
    if PATH_SEPARATOR !in s then [s] else DropEmpties(AllParts(s))
  }

  function Joined(parts: seq<string>): string {
    if parts == [] then "" else if |parts| == 1 then parts[0] else parts[0] + [PATH_SEPARATOR] + Joined(parts[1..])
  }

  /** Cutting a string and joining its parts gives it back, and no part holds a separator. */
  lemma {:induction false} PartsJoined(s: string)
    ensures Joined(AllParts(s)) == s
    ensures forall i :: 0 <= i < |AllParts(s)| ==> PATH_SEPARATOR !in AllParts(s)[i]
    decreases |s|
  {
    var i := IndexOf(s, PATH_SEPARATOR);
    if i < |s| {
      PartsJoined(s[i + 1..]);
      var later := AllParts(s[i + 1..]);
      assert AllParts(s)[1..] == later;
      assert s == s[..i] + [PATH_SEPARATOR] + s[i + 1..];
    }
  }

  /** Joining separate parts and cutting the text gives them back. */
  lemma {:induction false} JoinedParts(parts: seq<string>)
    requires parts != [] && forall i :: 0 <= i < |parts| ==> PATH_SEPARATOR !in parts[i]
    ensures AllParts(Joined(parts)) == parts
    decreases |parts|
  {
    hide AllParts;
    assert PATH_SEPARATOR !in parts[0];
    if |parts| == 1 {
      Uncut(parts[0]);
    } else {
      JoinedParts(parts[1..]);
      CutOnce(parts[0], Joined(parts[1..]));
    }
  }

  lemma Uncut(s: string)
    requires PATH_SEPARATOR !in s
    ensures AllParts(s) == [s]
  {
    assert IndexOf(s, PATH_SEPARATOR) == |s|;
  }

  lemma CutOnce(first: string, rest: string)
    requires PATH_SEPARATOR !in first
    ensures AllParts(first + [PATH_SEPARATOR] + rest) == [first] + AllParts(rest)
  {
    var s := first + [PATH_SEPARATOR] + rest;
    assert s[|first|] == PATH_SEPARATOR && forall j :: 0 <= j < |first| ==> s[j] == first[j];
    assert IndexOf(s, PATH_SEPARATOR) == |first|;
    assert s[..|first|] == first && s[|first| + 1..] == rest;
  }

  lemma {:induction false} DropsOnlyEmpties(parts: seq<string>) returns (n: nat)
    ensures parts == DropEmpties(parts) + seq(n, _ => "")
    ensures var kept := DropEmpties(parts); kept == [] || kept[|kept| - 1] != ""
    decreases |parts|
  {
    n := 0;
    if parts != [] && parts[|parts| - 1] == "" {
      n := DropsOnlyEmpties(parts[..|parts| - 1]);
      n := n + 1;
      assert parts == parts[..|parts| - 1] + [""];
    }
  }

  /** split gives all parts but the empty ones at the end. */
  lemma SplitIs(s: string) returns (n: nat)
    ensures AllParts(s) == Split(s) + seq(n, _ => "")
    ensures PATH_SEPARATOR in s ==> Split(s) == [] || Split(s)[|Split(s)| - 1] != ""
    ensures PATH_SEPARATOR !in s ==> n == 0 && Split(s) == [s]
    ensures forall i :: 0 <= i < |Split(s)| ==> PATH_SEPARATOR !in Split(s)[i]
  {
    PartsJoined(s);
    n := DropsOnlyEmpties(AllParts(s));
    if PATH_SEPARATOR !in s {
      assert IndexOf(s, PATH_SEPARATOR) == |s|;
      n := 0;
      assert [s] + seq(0, _ => "") == [s];
    } else {
      assert forall i :: 0 <= i < |Split(s)| ==> Split(s)[i] == AllParts(s)[i];
    }
  }

  // ----- LinkedHashSet -----

  function AddOne(elements: seq<string>, x: string): seq<string> {
    if x in elements then elements else elements + [x]
  }

  function AddAll(elements: seq<string>, xs: seq<string>): seq<string>
    decreases |xs|
  {
    if xs == [] then elements else AddAll(AddOne(elements, xs[0]), xs[1..])
  }

  lemma {:induction false} AddAllAppend(elements: seq<string>, a: seq<string>, b: seq<string>)
    ensures AddAll(elements, a + b) == AddAll(AddAll(elements, a), b)
    decreases |a|
  {
    if a == [] {
      assert a + b == b;
    } else {
      AddAllAppend(AddOne(elements, a[0]), a[1..], b);
      assert (a + b)[1..] == a[1..] + b;
    }
  }

  /** The first position of `x`. */
  function FirstIndex(xs: seq<string>, x: string): (i: nat)
    requires x in xs
    ensures i < |xs| && xs[i] == x && forall j :: 0 <= j < i ==> xs[j] != x
  {
    if xs[0] == x then 0 else 1 + FirstIndex(xs[1..], x)
  }

  /** Each element of `xs` once, in the order of first occurrence. */
  ghost predicate IsDistinct(d: seq<string>, xs: seq<string>) {
    && (forall x :: x in d <==> x in xs)
    && (forall i, j :: 0 <= i < j < |d| ==> d[i] != d[j])
    && (forall i, j :: 0 <= i < j < |d| && d[i] in xs && d[j] in xs ==> FirstIndex(xs, d[i]) < FirstIndex(xs, d[j]))
  }

  lemma FirstIndexSnoc(xs: seq<string>, y: string, x: string)
    requires x in xs + [y]
    ensures x in xs ==> FirstIndex(xs + [y], x) == FirstIndex(xs, x)
    ensures x !in xs ==> FirstIndex(xs + [y], x) == |xs|
  {
    var all := xs + [y];
    var i := FirstIndex(all, x);
    if x in xs {
      var k := FirstIndex(xs, x);
      assert all[k] == x && (i < |xs| ==> xs[i] == x);
    }
  }

  lemma DistinctSnoc(d: seq<string>, xs: seq<string>, y: string)
    requires IsDistinct(d, xs)
    ensures IsDistinct(AddOne(d, y), xs + [y])
  {
    var e, all := AddOne(d, y), xs + [y];
    assert forall x :: x in all <==> x in xs || x == y;
    assert forall x :: x in e <==> x in d || x == y;
    forall i, j | 0 <= i < j < |e| && e[i] in all && e[j] in all
      ensures FirstIndex(all, e[i]) < FirstIndex(all, e[j])
    {
      FirstIndexSnoc(xs, y, e[i]);
      FirstIndexSnoc(xs, y, e[j]);
      assert e[i] == d[i];
      if j < |d| {
        assert e[j] == d[j];
      }
    }
  }

  /** Adding a list to the empty set de-duplicates it in the order of first occurrence. */
  lemma {:induction false} AddAllIsDistinct(xs: seq<string>)
    ensures IsDistinct(AddAll([], xs), xs)
    decreases |xs|
  {
    if xs != [] {
      var before, y := xs[..|xs| - 1], xs[|xs| - 1];
      AddAllIsDistinct(before);
      DistinctSnoc(AddAll([], before), before, y);
      AddAllAppend([], before, [y]);
      assert before + [y] == xs && [y][1..] == [];
      assert AddAll(AddAll([], before), [y]) == AddOne(AddAll([], before), y);
    }
  }

  // ----- what the loop does -----

  /** The paths of all the options, in order, and the other arguments; None at an option without a value. */
  datatype Extracted = Extracted(paths: seq<string>, others: seq<string>)

  function Extract(args: seq<string>): Option<Extracted> {
    if args == [] then Some(Extracted([], []))
    else if IsClasspathOption(args[0]) then
      if |args| == 1 then None
      else
        match Extract(args[2..])
        case None => None
        case Some(e) => Some(Extracted(Split(args[1]) + e.paths, e.others))
    else
      match Extract(args[1..])
      case None => None
      case Some(e) => Some(Extracted(e.paths, [args[0]] + e.others))
  }

  /** The entries of the resulting classpath; option paths come as a set, the Cp header as a list. */
  function Entries(paths: seq<string>, classpath: Option<string>): seq<string> {
    var options := AddAll([], paths);
    if options == [] && classpath.Some? && classpath.value != "" then Split(classpath.value) + ["."]
    else AddOne(options, ".")
  }

  /** The request object that the handlers share; its args are reassigned. */
  class RequestCell {
    var value: Request.InvocationRequest

    constructor (value: Request.InvocationRequest)
      ensures this.value == value
    {
      this.value := value;
    }
  }

  /** None stands for the InvalidRequestHeaderException; the arguments are then left alone. */
  method RemoveClasspathFromArgs(request: RequestCell) returns (joined: Option<string>)
    modifies request
    ensures match Extract(old(request.value.args))
            case None => joined == None && request.value == old(request.value)
            case Some(e) =>
              && joined == Some(Joined(Entries(e.paths, old(request.value.classpath))))
              && request.value == old(request.value).(args := e.others)
  {
    var paths: seq<string> := [];
    var filteredArgs: seq<string> := [];
    ghost var raw: seq<string> := [];
    var args, classpath := request.value.args, request.value.classpath;
    var i := 0;
    assert args[0..] == args;
    ghost var whole := Extract(args);
    ExtractedWith([], [], whole);
    hide Extract, AddAll, Split;
    AddNothing();
    while i < |args|
      invariant i <= |args| && request.value == old(request.value)
      invariant paths == AddAll([], raw)
      invariant whole == With(raw, filteredArgs, Extract(args[i..]))
      decreases |args| - i
    {
      var opt := args[i];
      ExtractOne(args, i);
      i := i + 1;
      if IsClasspathOption(opt) {
        if i == |args| {
          return None;
        }
        AddAllAppend([], raw, Split(args[i]));
        WithPaths(raw, filteredArgs, Split(args[i]), Extract(args[i + 1..]));
        paths := AddAll(paths, Split(args[i]));
        raw := raw + Split(args[i]);
        i := i + 1;
      } else {
        WithOther(raw, filteredArgs, opt, Extract(args[i..]));
        filteredArgs := filteredArgs + [opt];
      }
    }
    ExtractEnd(args[i..], raw, filteredArgs);
    if paths == [] && classpath.Some? && classpath.value != "" {
      paths := Split(classpath.value) + ["."];
    } else {
      paths := AddOne(paths, ".");
    }
    request.value := request.value.(args := filteredArgs);
    joined := Some(Joined(paths));
  }

  function With(paths: seq<string>, others: seq<string>, r: Option<Extracted>): Option<Extracted> {
    if r.None? then None else Some(Extracted(paths + r.value.paths, others + r.value.others))
  }

  lemma AddNothing()
    ensures AddAll([], []) == []
  {
  }

  lemma ExtractedWith(paths: seq<string>, others: seq<string>, r: Option<Extracted>)
    ensures paths == [] && others == [] ==> With(paths, others, r) == r
  {
    if r.Some? {
      assert [] + r.value.paths == r.value.paths && [] + r.value.others == r.value.others;
    }
  }

  lemma WithPaths(paths: seq<string>, others: seq<string>, more: seq<string>, r: Option<Extracted>)
    ensures With(paths, others, With(more, [], r)) == With(paths + more, others, r)
  {
    if r.Some? {
      Assoc(paths, more, r.value.paths);
      assert [] + r.value.others == r.value.others;
    }
  }

  lemma WithOther(paths: seq<string>, others: seq<string>, arg: string, r: Option<Extracted>)
    ensures With(paths, others, With([], [arg], r)) == With(paths, others + [arg], r)
  {
    if r.Some? {
      Assoc(others, [arg], r.value.others);
      assert [] + r.value.paths == r.value.paths;
    }
  }

  lemma ExtractOne(args: seq<string>, i: nat)
    requires i < |args|
    ensures IsClasspathOption(args[i]) && i + 1 == |args| ==> Extract(args[i..]) == None
    ensures IsClasspathOption(args[i]) && i + 1 < |args| ==>
              Extract(args[i..]) == With(Split(args[i + 1]), [], Extract(args[i + 2..]))
    ensures !IsClasspathOption(args[i]) ==> Extract(args[i..]) == With([], [args[i]], Extract(args[i + 1..]))
  {
    var t := args[i..];
    hide IsClasspathOption, Split;
    if IsClasspathOption(args[i]) {
      if i + 1 < |args| {
        assert t[2..] == args[i + 2..] && t[1] == args[i + 1];
        if Extract(t[2..]).Some? {
          assert [] + Extract(t[2..]).value.others == Extract(t[2..]).value.others;
        }
      }
    } else {
      assert t[1..] == args[i + 1..];
      if Extract(t[1..]).Some? {
        assert [] + Extract(t[1..]).value.paths == Extract(t[1..]).value.paths;
      }
    }
  }

  lemma ExtractEnd(args: seq<string>, paths: seq<string>, others: seq<string>)
    ensures args == [] ==> With(paths, others, Extract(args)) == Some(Extracted(paths, others))
  {
    assert paths + [] == paths && others + [] == others;
  }

  // ----- what it means -----

  /** An argument list is a sequence of plain arguments and option/value pairs. */
  datatype Item = Plain(arg: string) | Pair(opt: string, value: string)

  predicate WellFormed(item: Item) {
    if item.Plain? then !IsClasspathOption(item.arg) else IsClasspathOption(item.opt)
  }

  ghost predicate AllWellFormed(items: seq<Item>) {
    forall i :: 0 <= i < |items| ==> WellFormed(items[i])
  }

  function Words(items: seq<Item>): seq<string> {
    if items == [] then []
    else (if items[0].Plain? then [items[0].arg] else [items[0].opt, items[0].value]) + Words(items[1..])
  }

  function PathsOf(items: seq<Item>): seq<string> {
    if items == [] then [] else (if items[0].Pair? then Split(items[0].value) else []) + PathsOf(items[1..])
  }

  function Plains(items: seq<Item>): seq<string> {
    if items == [] then [] else (if items[0].Plain? then [items[0].arg] else []) + Plains(items[1..])
  }

  /**
   For every list of well-formed items, in any positions, exactly the pairs are removed, the other arguments keep
   their order, and the paths are those of all the pairs, in order.
   */
  lemma {:induction false} ExtractReadsItems(items: seq<Item>)
    requires AllWellFormed(items)
    ensures Extract(Words(items)) == Some(Extracted(PathsOf(items), Plains(items)))
  {
    if items != [] {
      assert WellFormed(items[0]) && AllWellFormed(items[1..]);
      ExtractReadsItems(items[1..]);
      var args := Words(items);
      hide IsClasspathOption, Split;
      if items[0].Plain? {
        assert args[1..] == Words(items[1..]);
        assert [] + PathsOf(items[1..]) == PathsOf(items[1..]);
      } else {
        assert args[2..] == Words(items[1..]);
        assert [] + Plains(items[1..]) == Plains(items[1..]);
      }
    }
  }

  /** The exception is thrown exactly when the list ends in an option after well-formed items. */
  lemma {:induction false} ExtractSplits(args: seq<string>) returns (items: seq<Item>, rest: seq<string>)
    ensures AllWellFormed(items) && args == Words(items) + rest
    ensures Extract(args).Some? ==> rest == []
    ensures Extract(args).None? ==> |rest| == 1 && IsClasspathOption(rest[0])
    decreases |args|
  {
    hide IsClasspathOption, Split;
    if args == [] || (|args| == 1 && IsClasspathOption(args[0])) {
      items, rest := [], args;
      assert Words([]) + rest == rest;
    } else {
      var plain := !IsClasspathOption(args[0]);
      var item := if plain then Plain(args[0]) else Pair(args[0], args[1]);
      var used := if plain then 1 else 2;
      var tail;
      tail, rest := ExtractSplits(args[used..]);
      items := [item] + tail;
      OneItemMore(item, tail, args[..used]);
      assert args == args[..used] + args[used..];
      Assoc(args[..used], Words(tail), rest);
    }
  }

  lemma OneItemMore(item: Item, tail: seq<Item>, front: seq<string>)
    requires WellFormed(item) && AllWellFormed(tail)
    requires front == if item.Plain? then [item.arg] else [item.opt, item.value]
    ensures AllWellFormed([item] + tail) && Words([item] + tail) == front + Words(tail)
  {
    assert ([item] + tail)[1..] == tail;
  }

  /** Running the extraction on its own result changes nothing: what is left is no option. */
  lemma {:induction false} SecondRunIsNoOp(args: seq<string>)
    requires Extract(args).Some?
    ensures var others := Extract(args).value.others;
            Extract(others) == Some(Extracted([], others))
    decreases |args|
  {
    hide IsClasspathOption, Split;
    if args != [] {
      if IsClasspathOption(args[0]) {
        SecondRunIsNoOp(args[2..]);
      } else {
        SecondRunIsNoOp(args[1..]);
        var others := Extract(args).value.others;
        assert others[1..] == Extract(args[1..]).value.others;
      }
    }
  }

  /** What the loop returns: distinct option paths and ".", or the Cp entries as they are and ".". */
  lemma EntriesAre(paths: seq<string>, classpath: Option<string>)
    ensures paths != [] ==> IsDistinct(Entries(paths, classpath), paths + ["."])
    ensures paths == [] && classpath.Some? && classpath.value != "" ==>
              Entries(paths, classpath) == Split(classpath.value) + ["."]
    ensures paths == [] && (classpath.None? || classpath.value == "") ==> Entries(paths, classpath) == ["."]
  {
    AddAllIsDistinct(paths);
    DistinctSnoc(AddAll([], paths), paths, ".");
    AddNothing();
    if paths != [] {
      assert paths[0] in AddAll([], paths);
    }
    hide AddAll, Split, IsDistinct;
    assert AddOne([], ".") == ["."];
  }

  /**
   The code's comment promises the current directory as the last entry. It is the last exactly when no other
   option path occurs for the first time behind "."; a set does not move an element it already has.
   */
  lemma DotIsLastIff(paths: seq<string>, classpath: Option<string>)
    ensures var entries := Entries(paths, classpath);
            && "." in entries
            && (entries[|entries| - 1] == "."
                <==> "." !in paths || forall x :: x in paths ==> FirstIndex(paths, x) <= FirstIndex(paths, "."))
  {
    var options := AddAll([], paths);
    AddAllIsDistinct(paths);
    hide AddAll, Split;
    if "." in paths {
      var k :| 0 <= k < |options| && options[k] == ".";
      assert Entries(paths, classpath) == options;
      forall x | x in paths && k == |options| - 1 ensures FirstIndex(paths, x) <= FirstIndex(paths, ".") {
        var i :| 0 <= i < |options| && options[i] == x;
      }
      if k < |options| - 1 {
        var last := options[|options| - 1];
        assert last in options && last in paths;
        assert FirstIndex(paths, ".") < FirstIndex(paths, last);
      }
    }
  }

  /** `-cp .:lib` puts "." in front. */
  lemma DotInFront()
    ensures Extract(["-cp", ".:lib"]) == Some(Extracted([".", "lib"], []))
    ensures Entries([".", "lib"], None) == [".", "lib"]
  {
    hide Split, AddAll;
    assert "." + ":" + "lib" == ".:lib";
    TwoParts(".", "lib");
    AddTwo(".", "lib");
    assert ["-cp", ".:lib"][2..] == [] && [".", "lib"] + [] == [".", "lib"];
    assert Extract([]) == Some(Extracted([], []));
  }

  ghost predicate NoSeparators(parts: seq<string>) {
    forall i :: 0 <= i < |parts| ==> PATH_SEPARATOR !in parts[i]
  }

  lemma {:induction false} PathsHoldNoSeparators(args: seq<string>)
    ensures Extract(args).Some? ==> NoSeparators(Extract(args).value.paths)
    decreases |args|
  {
    hide IsClasspathOption, Split;
    if |args| > 0 && IsClasspathOption(args[0]) {
      if |args| > 1 {
        var _ := SplitIs(args[1]);
        PathsHoldNoSeparators(args[2..]);
      }
    } else if args != [] {
      PathsHoldNoSeparators(args[1..]);
    }
  }

  lemma EntriesHoldNoSeparators(paths: seq<string>, classpath: Option<string>)
    requires NoSeparators(paths)
    ensures var entries := Entries(paths, classpath);
            entries != [] && forall i :: 0 <= i < |entries| ==> PATH_SEPARATOR !in entries[i]
  {
    hide Split, AddAll, Entries;
    var entries := Entries(paths, classpath);
    EntriesAre(paths, classpath);
    DotIsLastIff(paths, classpath);
    if classpath.Some? {
      var _ := SplitIs(classpath.value);
    }
    if paths != [] {
      forall i | 0 <= i < |entries| ensures PATH_SEPARATOR !in entries[i] {
        assert entries[i] in paths + ["."];
      }
    }
  }

  /** The class path handed to the script, cut at the separator, is exactly the entries. */
  lemma ClasspathTextIs(args: seq<string>, classpath: Option<string>)
    requires Extract(args).Some?
    ensures var entries := Entries(Extract(args).value.paths, classpath); AllParts(Joined(entries)) == entries
  {
    hide Split, Extract, Joined, AllParts, Entries, NoSeparators;
    var paths := Extract(args).value.paths;
    PathsHoldNoSeparators(args);
    EntriesHoldNoSeparators(paths, classpath);
    JoinedParts(Entries(paths, classpath));
  }

  /** The three spellings of the option, with two entries, before a script. */
  lemma Spellings(opt: string, a: string, b: string)
    requires opt == "--classpath" || opt == "-cp" || opt == "-classpath"
    requires a != "" && b != "" && PATH_SEPARATOR !in a && PATH_SEPARATOR !in b && a != b && a != "." && b != "."
    ensures Extract([opt, a + ":" + b, "Foo.groovy"]) == Some(Extracted([a, b], ["Foo.groovy"]))
    ensures Joined(Entries([a, b], None)) == a + ":" + b + ":."
  {
    TwoParts(a, b);
    TwoEntries(a, b);
    hide Split, Joined, Entries;
    ScriptOnly();
    var args := [opt, a + ":" + b, "Foo.groovy"];
    assert args[2..] == ["Foo.groovy"];
    assert [a, b] + [] == [a, b];
  }

  /** Any other word stays an argument. */
  lemma OtherWordStays(word: string, later: seq<string>)
    requires word != "--classpath" && word != "-cp" && word != "-classpath"
    ensures Extract([word] + later)
         == match Extract(later)
            case None => None
            case Some(e) => Some(Extracted(e.paths, [word] + e.others))
  {
    assert ([word] + later)[1..] == later;
  }

  lemma TwoParts(a: string, b: string)
    requires a != "" && b != "" && PATH_SEPARATOR !in a && PATH_SEPARATOR !in b
    ensures Split(a + ":" + b) == [a, b]
  {
    hide AllParts;
    CutOnce(a, b);
    Uncut(b);
    assert [PATH_SEPARATOR] == ":" && (a + ":" + b)[|a|] == PATH_SEPARATOR;
  }

  lemma AddTwo(a: string, b: string)
    requires a != b
    ensures AddAll([], [a, b]) == [a, b]
  {
    assert [a, b][1..] == [b] && [b][1..] == [];
    assert AddOne([], a) == [a] && AddOne([a], b) == [a, b];
    hide AddOne;
    assert AddAll([a, b], []) == [a, b];
    assert AddAll([a], [b]) == AddAll(AddOne([a], b), []);
    assert AddAll([], [a, b]) == AddAll(AddOne([], a), [b]);
  }

  lemma TwoEntries(a: string, b: string)
    requires a != b && a != "." && b != "."
    ensures Joined(Entries([a, b], None)) == a + ":" + b + ":."
  {
    hide Joined, AddAll;
    AddTwo(a, b);
    assert [a, b] + ["."] == [a, b, "."];
    JoinedThree(a, b, ".");
  }

  lemma ScriptOnly()
    ensures Extract(["Foo.groovy"]) == Some(Extracted([], ["Foo.groovy"]))
  {
    assert Extract([]) == Some(Extracted([], []));
    assert ["Foo.groovy"][1..] == [] && ["Foo.groovy"] + [] == ["Foo.groovy"];
    assert "Foo.groovy"[0] == 'F';
  }

  lemma JoinedThree(a: string, b: string, c: string)
    ensures Joined([a, b, c]) == a + [PATH_SEPARATOR] + (b + [PATH_SEPARATOR] + c)
  {
    assert [a, b, c][1..] == [b, c] && [b, c][1..] == [c];
    assert Joined([b, c]) == b + [PATH_SEPARATOR] + c;
  }
}
