/**
 Byte strings and the small library functions both programs rely on: first index
 of a byte, Java's `trim`, decimal printing, C's `atoi` and Java's integer parsing.
 A byte is a `char` with a code below 256.
 */
module Text {
  datatype Option<+T> = None | Some(value: T)

  const NUL: char := 0 as char
  const LF: char := '\n'
  const CR: char := '\r'

  ghost predicate Bytes(s: string) {
    forall i :: 0 <= i < |s| ==> s[i] as int < 256
  }

  /** A C string: its terminator is not part of it. */
  ghost predicate CString(s: string) {
    NUL !in s
  }

  /** The first position of `c`, or `|s|` when there is none. */
  function IndexOf(s: string, c: char): (i: nat)
    ensures i <= |s|
    ensures i < |s| ==> s[i] == c
    ensures forall j :: 0 <= j < i ==> s[j] != c
  {
    if s == "" || s[0] == c then 0 else 1 + IndexOf(s[1..], c)
  }

  /** What C functions see of a byte buffer: everything before the first NUL. */
  function UpToNul(s: string): string {
    s[..IndexOf(s, NUL)]
  }

  /** The NAME of an environment entry NAME=VALUE. */
  function EnvName(entry: string): string {
    entry[..IndexOf(entry, '=')]
  }

  function Zeros(n: nat): (z: string)
    ensures |z| == n && forall i :: 0 <= i < n ==> z[i] == NUL
  {
    seq(n, i => NUL)
  }

  /** The bytes strncpy writes: `n` bytes of `s`, zero padded. */
  function Padded(s: string, n: nat): (r: string)
    ensures |r| == n
  {
    if n <= |s| then s[..n] else s + Zeros(n - |s|)
  }

  /** strncpy copies byte by byte, and writes zeros behind a shorter string. */
  lemma PaddedBytes(s: string, n: nat, i: nat)
    requires i < n
    ensures Padded(s, n)[i] == if i < |s| then s[i] else NUL
  {
  }

  /** Whether `pattern` occurs in `s` (strstr). */
  predicate Occurs(pattern: string, s: string) {
    exists i | 0 <= i <= |s| - |pattern| :: pattern <= s[i..]
  }

  /** The pattern occurs exactly in the strings that have it between a front and a back. */
  lemma OccursIff(pattern: string, s: string)
    ensures Occurs(pattern, s) <==> exists a, b :: s == a + pattern + b
  {
    if Occurs(pattern, s) {
      var i :| 0 <= i <= |s| - |pattern| && pattern <= s[i..];
      assert s == s[..i] + pattern + s[i + |pattern|..];
    }
    if a, b :| s == a + pattern + b {
      assert pattern <= s[|a|..];
    }
  }

  /** NAME=VALUE, the VALUE possibly empty or holding '=' itself. */
  lemma EnvNameOf(name: string, value: string)
    requires '=' !in name
    ensures IndexOf(name + "=" + value, '=') == |name| && EnvName(name + "=" + value) == name
  {
    var s := name + "=" + value;
    assert s[|name|] == '=';
    assert forall j :: 0 <= j < |name| ==> s[j] == name[j];
    assert s[..|name|] == name;
  }

  lemma Assoc<T>(x: seq<T>, y: seq<T>, z: seq<T>)
    ensures (x + y) + z == x + (y + z)
  {
  }

  function Concat(parts: seq<string>): string {
    if parts == [] then "" else parts[0] + Concat(parts[1..])
  }

  lemma {:induction false} ConcatAppend(a: seq<string>, b: seq<string>)
    ensures Concat(a + b) == Concat(a) + Concat(b)
  {
    if a == [] {
      assert a + b == b;
    } else {
      ConcatAppend(a[1..], b);
      assert (a + b)[1..] == a[1..] + b;
      Assoc(a[0], Concat(a[1..]), Concat(b));
    }
  }

  // ----- java.lang.String.trim -----

  predicate Blank(c: char) {
    c <= ' '
  }

  function TrimLeft(s: string): string {
    if s != "" && Blank(s[0]) then TrimLeft(s[1..]) else s
  }

  function TrimRight(s: string): string {
    if s != "" && Blank(s[|s| - 1]) then TrimRight(s[..|s| - 1]) else s
  }

  function Trim(s: string): string {
    TrimRight(TrimLeft(s))
  }

  predicate Trimmed(s: string) {
    s == "" || (!Blank(s[0]) && !Blank(s[|s| - 1]))
  }

  lemma {:induction false} TrimRightKeepsFirst(s: string)
    requires s == "" || !Blank(s[0])
    ensures Trimmed(TrimRight(s))
    decreases |s|
  {
    if s != "" && Blank(s[|s| - 1]) {
      TrimRightKeepsFirst(s[..|s| - 1]);
    }
  }

  lemma {:induction false} TrimLeftStops(s: string)
    ensures TrimLeft(s) == "" || !Blank(TrimLeft(s)[0])
  {
    if s != "" && Blank(s[0]) {
      TrimLeftStops(s[1..]);
    }
  }

  lemma TrimFixpoint(s: string)
    ensures Trimmed(Trim(s))
    ensures Trim(s) == s <==> Trimmed(s)
  {
    TrimLeftStops(s);
    TrimRightKeepsFirst(TrimLeft(s));
  }

  lemma {:induction false} TrimLeftAddsNothing(s: string, c: char)
    requires c !in s
    ensures c !in TrimLeft(s)
  {
    if s != "" && Blank(s[0]) {
      TrimLeftAddsNothing(s[1..], c);
    }
  }

  lemma {:induction false} TrimRightAddsNothing(s: string, c: char)
    requires c !in s
    ensures c !in TrimRight(s)
    decreases |s|
  {
    if s != "" && Blank(s[|s| - 1]) {
      TrimRightAddsNothing(s[..|s| - 1], c);
    }
  }

  lemma TrimAddsNothing(s: string, c: char)
    requires c !in s
    ensures c !in Trim(s)
  {
    TrimLeftAddsNothing(s, c);
    TrimRightAddsNothing(TrimLeft(s), c);
  }

  lemma TrimAfterSpace(s: string)
    ensures Trim(" " + s) == Trim(s)
  {
    assert (" " + s)[1..] == s;
  }

  ghost predicate AllBlank(s: string) {
    forall i :: 0 <= i < |s| ==> Blank(s[i])
  }

  lemma {:induction false} TrimLeftDrops(a: string, s: string)
    requires AllBlank(a)
    ensures TrimLeft(a + s) == TrimLeft(s)
  {
    if a == "" {
      assert a + s == s;
    } else {
      TrimLeftDrops(a[1..], s);
      assert (a + s)[1..] == a[1..] + s;
    }
  }

  lemma {:induction false} TrimRightDrops(s: string, b: string)
    requires AllBlank(b)
    ensures TrimRight(s + b) == TrimRight(s)
    decreases |b|
  {
    if b == "" {
      assert s + b == s;
    } else {
      TrimRightDrops(s, b[..|b| - 1]);
      assert (s + b)[..|s + b| - 1] == s + b[..|b| - 1];
    }
  }

  /** Trimming takes away exactly the outer blanks. */
  lemma TrimTakesBlanks(a: string, t: string, b: string)
    requires AllBlank(a) && AllBlank(b) && Trimmed(t)
    ensures Trim(a + t + b) == t
  {
    Assoc(a, t, b);
    TrimLeftDrops(a, t + b);
    if t == "" {
      assert t + b == b && b + "" == b && "" + b == b;
      TrimLeftDrops(b, "");
    } else {
      assert (t + b)[0] == t[0];
      TrimRightDrops(t, b);
    }
  }

  // ----- decimal numbers -----

  predicate IsDigit(c: char) {
    '0' <= c <= '9'
  }

  /** isspace in the C locale. */
  predicate IsSpace(c: char) {
    c == ' ' || 9 as char <= c <= 13 as char
  }

  predicate IsAlnum(c: char) {
    IsDigit(c) || 'a' <= c <= 'z' || 'A' <= c <= 'Z'
  }

  function DigitChar(d: nat): (c: char)
    requires d < 10
    ensures IsDigit(c) && DigitValue(c) == d
  {
    ('0' as int + d) as char
  }

  function Digits(n: nat): (s: string)
    ensures s != "" && forall i :: 0 <= i < |s| ==> IsDigit(s[i])
  {
    if n < 10 then [DigitChar(n)] else Digits(n / 10) + [DigitChar(n % 10)]
  }

  /** Java's `"$n"` for an integer, and C's `%d`. */
  function Decimal(n: int): (s: string)
    ensures s != ""
    ensures forall i :: 0 <= i < |s| ==> IsDigit(s[i]) || s[i] == '-'
  {
    if n < 0 then "-" + Digits(-n) else Digits(n)
  }

  function DigitValue(c: char): (d: int)
    requires IsDigit(c)
    ensures 0 <= d < 10
  {
    c as int - '0' as int
  }

  function NatOf(s: string): (n: int)
    requires forall i :: 0 <= i < |s| ==> IsDigit(s[i])
    ensures n >= 0
  {
    if s == "" then 0 else NatOf(s[..|s| - 1]) * 10 + DigitValue(s[|s| - 1])
  }

  lemma {:induction false} NatOfDigits(n: nat)
    ensures NatOf(Digits(n)) == n
  {
    if n >= 10 {
      NatOfDigits(n / 10);
      assert Digits(n)[..|Digits(n)| - 1] == Digits(n / 10);
    }
  }

  lemma {:induction false} DigitsLength(n: nat, k: nat, bound: nat)
    requires k >= 1 && bound == Power10(k) && n < bound
    ensures |Digits(n)| <= k
  {
    if n >= 10 {
      DigitsLength(n / 10, k - 1, bound / 10);
    }
  }

  function Power10(k: nat): (p: nat)
    ensures p >= 1
  {
    if k == 0 then 1 else 10 * Power10(k - 1)
  }

  function DigitRun(s: string): (n: nat)
    ensures n <= |s| && (forall i :: 0 <= i < n ==> IsDigit(s[i])) && (n < |s| ==> !IsDigit(s[n]))
  {
    if s != "" && IsDigit(s[0]) then 1 + DigitRun(s[1..]) else 0
  }

  function SkipSpaces(s: string): string {
    if s != "" && IsSpace(s[0]) then SkipSpaces(s[1..]) else s
  }

  /** C's atoi, on numbers that fit an int: blanks, an optional sign, leading digits. */
  function Atoi(s: string): int {
    var t := SkipSpaces(s);
    if t != "" && t[0] == '-' then -NatOf(t[1..][..DigitRun(t[1..])])
    else if t != "" && t[0] == '+' then NatOf(t[1..][..DigitRun(t[1..])])
    else NatOf(t[..DigitRun(t)])
  }

  predicate Int32(n: int) {
    -0x8000_0000 <= n < 0x8000_0000
  }

  predicate AllDigits(s: string) {
    s != "" && forall i :: 0 <= i < |s| ==> IsDigit(s[i])
  }

  /** Integer.valueOf: an optional sign, digits only, in the range of an int. */
  function ParseInteger(s: string): Option<int> {
    var t := if s != "" && (s[0] == '-' || s[0] == '+') then s[1..] else s;
    if !AllDigits(t) then None
    else
      var n := if s[0] == '-' then -NatOf(t) else NatOf(t);
      if Int32(n) then Some(n) else None
  }

  /** atoi and Integer.valueOf both undo decimal printing, negative numbers included. */
  lemma DecimalRoundTrip(n: int)
    ensures Atoi(Decimal(n)) == n
    ensures Int32(n) ==> ParseInteger(Decimal(n)) == Some(n)
  {
    var d := Digits(if n < 0 then -n else n);
    NatOfDigits(if n < 0 then -n else n);
    SignedValue(d, n < 0);
  }

  lemma SignedValue(d: string, negative: bool)
    requires AllDigits(d)
    ensures var s := if negative then "-" + d else d;
            var n := if negative then -NatOf(d) else NatOf(d);
            && Atoi(s) == n
            && ParseInteger(s) == if Int32(n) then Some(n) else None
  {
    var s := if negative then "-" + d else d;
    assert IsDigit(d[0]) && s[0] == (if negative then '-' else d[0]);
    hide NatOf;
    assert SkipSpaces(s) == s;
    assert d[..|d|] == d && ("-" + d)[1..] == d;
  }

  lemma Int32Length(n: int)
    requires Int32(n)
    ensures |Decimal(n)| <= 11
  {
    var m := if n < 0 then -n else n;
    assert Power10(10) == 10_000_000_000 by {
      assert Power10(2) == 100;
      assert Power10(4) == 10_000;
      assert Power10(6) == 1_000_000;
      assert Power10(8) == 100_000_000;
    }
    DigitsLength(m, 10, 10_000_000_000);
  }

  /** atoi and sscanf skip blanks in front and stop at the first character that is no digit. */
  lemma AtoiReadsFront(a: string, n: int, b: string)
    requires (forall i :: 0 <= i < |a| ==> IsSpace(a[i])) && (b == "" || !IsDigit(b[0]))
    ensures Atoi(a + Decimal(n) + b) == n
  {
    hide NatOf, Digits, DigitRun, Atoi;
    var m := if n < 0 then -n else n;
    NatOfDigits(m);
    Assoc(a, Decimal(n), b);
    SignedFront(a, Digits(m), n < 0, b);
  }

  lemma SignedFront(a: string, d: string, negative: bool, b: string)
    requires AllDigits(d)
    requires (forall i :: 0 <= i < |a| ==> IsSpace(a[i])) && (b == "" || !IsDigit(b[0]))
    ensures Atoi(a + ((if negative then "-" + d else d) + b)) == if negative then -NatOf(d) else NatOf(d)
  {
    hide NatOf, DigitRun;
    var s := (if negative then "-" + d else d) + b;
    SpacesSkipped(a, s);
    DigitRunOf(d, b);
    assert IsDigit(d[0]) && s[0] == (if negative then '-' else d[0]);
    assert SkipSpaces(s) == s;
    hide SkipSpaces;
    assert (d + b)[..|d|] == d && (negative ==> s[1..] == d + b);
  }

  lemma {:induction false} SpacesSkipped(a: string, s: string)
    requires forall i :: 0 <= i < |a| ==> IsSpace(a[i])
    ensures SkipSpaces(a + s) == SkipSpaces(s)
  {
    if a == "" {
      assert a + s == s;
    } else {
      SpacesSkipped(a[1..], s);
      assert (a + s)[1..] == a[1..] + s;
    }
  }

  lemma {:induction false} DigitRunOf(d: string, b: string)
    requires (forall i :: 0 <= i < |d| ==> IsDigit(d[i])) && (b == "" || !IsDigit(b[0]))
    ensures DigitRun(d + b) == |d|
  {
    if d == "" {
      assert d + b == b;
    } else {
      DigitRunOf(d[1..], b);
      assert (d + b)[1..] == d[1..] + b;
    }
  }

  /** A plus sign is read over by both. */
  lemma PlusSign(d: string)
    requires AllDigits(d)
    ensures Atoi(" \t\r\n" + "+" + d) == NatOf(d)
    ensures ParseInteger("+" + d) == if Int32(NatOf(d)) then Some(NatOf(d)) else None
  {
    hide NatOf;
    var s := "+" + d;
    assert SkipSpaces(s) == s && s[1..] == d && s[0] == '+';
    SpacesSkipped(" \t\r\n", s);
    Assoc(" \t\r\n", "+", d);
    DigitRunOf(d, "");
    assert d + "" == d && d[..|d|] == d;
    hide SkipSpaces, DigitRun;
  }

  /** Numbers are printed to the base ten, most significant digit first. */
  lemma DecimalExamples()
    ensures Decimal(0) == "0" && Decimal(1024) == "1024" && Decimal(-7) == "-7"
  {
    assert Digits(1) == "1" && Digits(10) == "10" && Digits(102) == "102";
  }

  /** Integer.valueOf takes a sign and digits only. */
  lemma ParseIntegerRefuses(s: string, i: nat)
    requires i < |s| && !IsDigit(s[i]) && (i > 0 || (s[i] != '-' && s[i] != '+'))
    ensures ParseInteger(s) == None
  {
    var t := if s[0] == '-' || s[0] == '+' then s[1..] else s;
    assert s[i] in t by {
      assert t == s || t[i - 1] == s[i];
    }
  }

  lemma DecimalIsClean(n: int)
    ensures LF !in Decimal(n) && NUL !in Decimal(n) && Trimmed(Decimal(n))
  {
  }
}
