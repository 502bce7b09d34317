/** The client's Base64 encoder: a 32-bit bit accumulator refines section 4 of RFC 4648. */
module Base64 {
  import opened Arith
  import opened Text

  const UPPER := "ABCDEFGHIJKLMNOPQRSTUVWXYZ"
  const LOWER := "abcdefghijklmnopqrstuvwxyz"
  const DIGITS := "0123456789"
  const DICT: string := UPPER + LOWER + DIGITS + "+/"

  // ----- section 4 of RFC 4648 -----

  function Symbol(index: int): char
    requires 0 <= index < 64
  {
    if index < 26 then ('A' as int + index) as char
    else if index < 52 then ('a' as int + index - 26) as char
    else if index < 62 then ('0' as int + index - 52) as char
    else if index == 62 then '+' else '/'
  }

  /** The index of a symbol; -1 for a character outside the alphabet. */
  function IndexOfSymbol(c: char): (index: int)
    ensures -1 <= index < 64
  {
    if 'A' <= c <= 'Z' then c as int - 'A' as int
    else if 'a' <= c <= 'z' then c as int - 'a' as int + 26
    else if '0' <= c <= '9' then c as int - '0' as int + 52
    else if c == '+' then 62
    else if c == '/' then 63
    else -1
  }

  lemma SymbolRoundTrip(index: int)
    requires 0 <= index < 64
    ensures IndexOfSymbol(Symbol(index)) == index
    ensures !Blank(Symbol(index)) && Symbol(index) != '='
  {
  }

  lemma UpperAt(i: int)
    requires 0 <= i < 26
    ensures |UPPER| == 26 && UPPER[i] == ('A' as int + i) as char
  {
  }

  lemma LowerAt(i: int)
    requires 0 <= i < 26
    ensures |LOWER| == 26 && LOWER[i] == ('a' as int + i) as char
  {
  }

  lemma DigitAt(i: int)
    requires 0 <= i < 10
    ensures |DIGITS| == 10 && DIGITS[i] == ('0' as int + i) as char
  {
  }

  lemma DictIsAlphabet(i: int)
    requires 0 <= i < 64
    ensures |DICT| == 64 && DICT[i] == Symbol(i)
  {
    if i < 26 {
      UpperAt(i);
    } else if i < 52 {
      LowerAt(i - 26);
    } else if i < 62 {
      DigitAt(i - 52);
    }
  }

  function ByteAt(s: string, i: int): (b: int)
    requires Bytes(s)
    ensures 0 <= b < 256
  {
    if 0 <= i < |s| then s[i] as int else 0
  }

  /** How four 6-bit groups divide three bytes. */
  function Sextet(r: int, a: int, b: int, c: int): (v: int)
    requires 0 <= a < 256 && 0 <= b < 256 && 0 <= c < 256
    ensures 0 <= v < 64
  {
    if r == 0 then a / 4
    else if r == 1 then a % 4 * 16 + b / 16
    else if r == 2 then b % 16 * 4 + c / 64
    else c % 64
  }

  /** The `x`-th 6-bit group of the `g`-th three bytes of `s`, zero bits added on the right. */
  function Group(s: string, g: nat, x: nat): (v: int)
    requires Bytes(s)
    ensures 0 <= v < 64
  {
    Sextet(x, ByteAt(s, 3 * g), ByteAt(s, 3 * g + 1), ByteAt(s, 3 * g + 2))
  }

  function EncodedLength(n: nat): nat {
    (n + 2) / 3 * 4
  }

  /** One symbol for each 6-bit group, then '=' up to a whole number of quartets. */
  function Encoded(s: string): (t: string)
    requires Bytes(s)
    ensures |t| == EncodedLength(|s|)
  {
    seq(EncodedLength(|s|), j requires 0 <= j < EncodedLength(|s|) =>
      if 6 * j < 8 * |s| then Symbol(Group(s, j / 4, j % 4)) else '=')
  }

  function Padding(t: string): (n: nat)
    ensures n <= 2 && n <= |t|
  {
    if |t| >= 2 && t[|t| - 2..] == "==" then 2 else if |t| >= 1 && t[|t| - 1] == '=' then 1 else 0
  }

  predicate WellFormed(t: string) {
    |t| % 4 == 0 && forall j :: 0 <= j < |t| - Padding(t) ==> IndexOfSymbol(t[j]) >= 0
  }

  function ValueAt(t: string, j: nat): (v: int)
    ensures 0 <= v < 64
  {
    if j < |t| && IndexOfSymbol(t[j]) >= 0 then IndexOfSymbol(t[j]) else 0
  }

  /** How three bytes divide four 6-bit groups. */
  function Octet(r: int, i: int, j: int, k: int, l: int): (v: int)
    requires 0 <= i < 64 && 0 <= j < 64 && 0 <= k < 64 && 0 <= l < 64
    ensures 0 <= v < 256
  {
    if r == 0 then i * 4 + j / 16
    else if r == 1 then j % 16 * 16 + k / 4
    else k % 4 * 64 + l
  }

  function DecodedByte(t: string, g: nat, r: nat): char {
    Octet(r, ValueAt(t, 4 * g), ValueAt(t, 4 * g + 1), ValueAt(t, 4 * g + 2), ValueAt(t, 4 * g + 3)) as char
  }

  /** A section 4 decoder: quartets of symbols, padding only at the end. */
  function Decoded(t: string): Option<string> {
    if !WellFormed(t) then None
    else Some(seq(|t| / 4 * 3 - Padding(t), i requires 0 <= i => DecodedByte(t, i / 3, i % 3)))
  }

  lemma EncodedAt(s: string, g: nat, x: nat)
    requires Bytes(s) && x < 4 && 4 * g + x < EncodedLength(|s|)
    ensures var j := 4 * g + x;
            && (6 * j < 8 * |s| ==> Encoded(s)[j] == Symbol(Group(s, g, x)))
            && (6 * j >= 8 * |s| ==> Encoded(s)[j] == '=')
  {
    DivMod(4 * g + x, 4, g, x);
  }

  lemma ValueOfSymbol(t: string, j: nat, v: int)
    requires 0 <= v < 64 && j < |t|
    requires t[j] == Symbol(v) || (t[j] == '=' && v == 0)
    ensures ValueAt(t, j) == v
  {
    SymbolRoundTrip(v);
  }

  lemma EncodedIsText(s: string, j: nat)
    requires Bytes(s) && j < EncodedLength(|s|)
    ensures !Blank(Encoded(s)[j])
    ensures Encoded(s)[j] == '=' <==> 6 * j >= 8 * |s|
    ensures 6 * j < 8 * |s| ==> IndexOfSymbol(Encoded(s)[j]) >= 0
  {
    SymbolRoundTrip(Group(s, j / 4, j % 4));
  }

  lemma LengthForm(n: nat) returns (g: nat, r: nat)
    ensures n == 3 * g + r && r < 3 && g == n / 3 && r == n % 3
    ensures EncodedLength(n) == 4 * g + (if r == 0 then 0 else 4)
  {
    g, r := n / 3, n % 3;
    DivMod(n + 2, 3, if r == 0 then g else g + 1, if r == 0 then 2 else r - 1);
  }

  lemma LengthIs(n: nat, g: nat, r: nat)
    requires n == 3 * g + r && r < 3
    ensures EncodedLength(n) == 4 * g + (if r == 0 then 0 else 4)
  {
    DivMod(n + 2, 3, if r == 0 then g else g + 1, if r == 0 then 2 else r - 1);
  }

  lemma EncodedPadding(s: string)
    requires Bytes(s)
    ensures Padding(Encoded(s)) == (if |s| % 3 == 0 then 0 else 3 - |s| % 3)
    ensures WellFormed(Encoded(s))
  {
    var t := Encoded(s);
    var g, r := LengthForm(|s|);
    DivMod(|t|, 4, if r == 0 then g else g + 1, 0);
    forall j | 0 <= j < |t|
      ensures t[j] == '=' <==> 6 * j >= 8 * |s|
      ensures 6 * j < 8 * |s| ==> IndexOfSymbol(t[j]) >= 0
    {
      EncodedIsText(s, j);
    }
    if |t| >= 2 {
      assert t[|t| - 2..] == [t[|t| - 2], t[|t| - 1]];
    }
  }

  /** A group beyond the last byte has no bits set, so '=' stands for it. */
  lemma QuartetValue(s: string, g: nat, x: nat)
    requires Bytes(s) && 3 * g < |s| && x < 4
    ensures ValueAt(Encoded(s), 4 * g + x) == Group(s, g, x)
  {
    var _, _ := LengthForm(|s|);
    EncodedAt(s, g, x);
    assert 6 * (4 * g + x) >= 8 * |s| ==> Group(s, g, x) == 0;
    ValueOfSymbol(Encoded(s), 4 * g + x, Group(s, g, x));
  }

  lemma OctetsOfSextets(r: int, a: int, b: int, c: int)
    requires 0 <= a < 256 && 0 <= b < 256 && 0 <= c < 256
    ensures Octet(r, Sextet(0, a, b, c), Sextet(1, a, b, c), Sextet(2, a, b, c), Sextet(3, a, b, c))
         == if r == 0 then a else if r == 1 then b else c
  {
    DivMod(a % 4 * 16 + b / 16, 16, a % 4, b / 16);
    DivMod(b % 16 * 4 + c / 64, 4, b % 16, c / 64);
  }

  lemma RoundTripAt(s: string, g: nat, r: nat)
    requires Bytes(s) && r < 3 && 3 * g + r < |s|
    ensures DecodedByte(Encoded(s), g, r) == s[3 * g + r]
  {
    hide Sextet, Octet;
    QuartetValue(s, g, 0);
    QuartetValue(s, g, 1);
    QuartetValue(s, g, 2);
    QuartetValue(s, g, 3);
    OctetsOfSextets(r, ByteAt(s, 3 * g), ByteAt(s, 3 * g + 1), ByteAt(s, 3 * g + 2));
  }

  /** Decoding the encoder's text gives the original bytes back, for every byte string. */
  lemma RoundTrip(s: string)
    requires Bytes(s)
    ensures Decoded(Encoded(s)) == Some(s)
  {
    hide DecodedByte, WellFormed, Padding, Encoded;
    EncodedPadding(s);
    var t := Encoded(s);
    var g, r := LengthForm(|s|);
    DivMod(|t|, 4, if r == 0 then g else g + 1, 0);
    forall i | 0 <= i < |s| ensures DecodedByte(t, i / 3, i % 3) == s[i] {
      RoundTripAt(s, i / 3, i % 3);
    }
    assert |t| / 4 * 3 - Padding(t) == |s|;
    assert seq(|t| / 4 * 3 - Padding(t), i requires 0 <= i => DecodedByte(t, i / 3, i % 3)) == s;
  }

  /** Up to three bytes make one quartet. */
  lemma Quartet(s: string)
    requires Bytes(s) && 1 <= |s| <= 3
    ensures Encoded(s) == [Symbol(Group(s, 0, 0)), Symbol(Group(s, 0, 1)),
                           if |s| > 1 then Symbol(Group(s, 0, 2)) else '=',
                           if |s| > 2 then Symbol(Group(s, 0, 3)) else '=']
  {
    hide Symbol, Group;
    LengthIs(|s|, |s| / 3, |s| % 3);
    EncodedAt(s, 0, 0);
    EncodedAt(s, 0, 1);
    EncodedAt(s, 0, 2);
    EncodedAt(s, 0, 3);
    hide Encoded;
  }

  /** Examples of section 10 of RFC 4648, which use both kinds of padding. */
  lemma Examples()
    ensures Encoded("f") == "Zg==" && Encoded("fo") == "Zm8=" && Encoded("foo") == "Zm9v"
  {
    hide Encoded, Group, Symbol;
    Quartet("f");
    Quartet("fo");
    Quartet("foo");
    GroupsOfFoo();
    SymbolsOfFoo();
  }

  /** The last two symbols of the alphabet. */
  lemma PlusAndSlash()
    ensures Encoded([251 as char, 255 as char]) == "+/8="
  {
    hide Encoded;
    var s := [251 as char, 255 as char];
    Quartet(s);
    assert Group(s, 0, 0) == 62 && Group(s, 0, 1) == 63 && Group(s, 0, 2) == 60;
    hide Group;
    assert Symbol(62) == '+' && Symbol(63) == '/' && Symbol(60) == '8';
  }

  lemma GroupsOfFoo()
    ensures Group("f", 0, 0) == Group("fo", 0, 0) == Group("foo", 0, 0) == 25
    ensures Group("f", 0, 1) == 32 && Group("fo", 0, 1) == Group("foo", 0, 1) == 38
    ensures Group("fo", 0, 2) == 60 && Group("foo", 0, 2) == 61 && Group("foo", 0, 3) == 47
  {
  }

  lemma SymbolsOfFoo()
    ensures Symbol(25) == 'Z' && Symbol(32) == 'g' && Symbol(38) == 'm' && Symbol(60) == '8' && Symbol(61) == '9'
    ensures Symbol(47) == 'v'
  {
  }

  /** An encoded argument is a single trimmed header value: no blank and no control byte in it. */
  lemma EncodedIsClean(s: string)
    requires Bytes(s)
    ensures LF !in Encoded(s) && NUL !in Encoded(s) && Trimmed(Encoded(s))
  {
    var t := Encoded(s);
    forall j | 0 <= j < |t| ensures !Blank(t[j]) {
      EncodedIsText(s, j);
    }
    assert Blank(LF) && Blank(NUL);
  }

  /** The text with its terminator fits what send_header allocates for it. */
  lemma EncodedFits(s: string)
    requires Bytes(s)
    ensures |Encoded(s)| + 1 <= |s| * 3 / 2 + 5
  {
  }

  // ----- the accumulator -----

  /** Two's complement reduction to a 32-bit int. */
  function Wrap32(x: int): int {
    (x + 0x8000_0000) % 0x1_0000_0000 - 0x8000_0000
  }

  function ShiftFill(w: int, b: int): int {
    Wrap32(Wrap32(w * 256) + b)
  }

  /** work_buff after the bytes of `s`: shifted left by 8 and filled, in 32 bits. */
  function Accumulated(s: string): int {
    if s == "" then 0 else ShiftFill(Accumulated(s[..|s| - 1]), s[|s| - 1] as int)
  }

  /** The same accumulator in an integer that never overflows. */
  function Unbounded(s: string): int {
    if s == "" then 0 else Unbounded(s[..|s| - 1]) * 256 + s[|s| - 1] as int
  }

  function Pow2(n: nat): (p: nat)
    requires n <= 6
    ensures p > 0
  {
    match n
    case 0 => 1
    case 1 => 2
    case 2 => 4
    case 3 => 8
    case 4 => 16
    case 5 => 32
    case _ => 64
  }

  /** `w << n` in 32 bits. */
  function ShiftLeft(w: int, n: nat): int
    requires n <= 6
  {
    Wrap32(w * Pow2(n))
  }

  /** `(w >> n) & 0x3f`, the shift being arithmetic. */
  function SelectSix(w: int, n: nat): (index: int)
    requires n <= 6
    ensures 0 <= index < 64
  {
    w / Pow2(n) % 64
  }

  lemma Wrapped(x: int) returns (k: int)
    ensures Wrap32(x) == x + k * 0x1_0000_0000
  {
    k := -((x + 0x8000_0000) / 0x1_0000_0000);
  }

  lemma Filled(w: int, b: int) returns (k: int)
    ensures ShiftFill(w, b) == w * 256 + b + k * 0x1_0000_0000
  {
    var i := Wrapped(w * 256);
    var j := Wrapped(Wrap32(w * 256) + b);
    k := i + j;
  }

  /** In 32 bits work_buff is the unbounded accumulator up to a multiple of 2^32. */
  lemma {:induction false} Congruent(s: string) returns (k: int)
    ensures Accumulated(s) == Unbounded(s) + k * 0x1_0000_0000
  {
    k := 0;
    if s != "" {
      var t := s[..|s| - 1];
      var i := Congruent(t);
      var j := Filled(Accumulated(t), s[|s| - 1] as int);
      k := i * 256 + j;
    }
  }

  lemma SameGroup(u: int, k: int, d: int, m: int)
    requires d > 0 && d * m == 0x400_0000
    ensures (u + k * 0x1_0000_0000) / d % 64 == u / d % 64
  {
    var q, e := u / d, k * m;
    assert e * d == k * 0x400_0000;
    Distribute(q, -64 * e, d);
    DivMod(u + k * 0x1_0000_0000, d, q + 64 * e, u % d);
    DivMod(q + 64 * e, 64, q / 64 + e, q % 64);
  }

  /**
   The overflowing accumulator selects the same 6-bit indices as an unbounded one:
   base64_encode only shifts right by 6 or less, so at most 12 low bits matter.
   */
  lemma OverflowIsHarmless(s: string, shift: nat)
    requires shift <= 6
    ensures SelectSix(Accumulated(s), shift) == SelectSix(Unbounded(s), shift)
  {
    var k := Congruent(s);
    var d := Pow2(shift);
    SameGroup(Unbounded(s), k, d, match d
                                  case 1 => 0x400_0000
                                  case 2 => 0x200_0000
                                  case 4 => 0x100_0000
                                  case 8 => 0x80_0000
                                  case 16 => 0x40_0000
                                  case 32 => 0x20_0000
                                  case _ => 0x10_0000);
  }

  /** The low 16 bits of work_buff are the last two bytes. */
  lemma {:induction false} LowBytes(s: string) returns (h: int)
    requires Bytes(s)
    ensures Accumulated(s) == h * 65536 + ByteAt(s, |s| - 2) * 256 + ByteAt(s, |s| - 1)
  {
    h := 0;
    if s != "" {
      var t := s[..|s| - 1];
      var h' := LowBytes(t);
      var k := Filled(Accumulated(t), s[|s| - 1] as int);
      h := h' * 256 + ByteAt(t, |t| - 2) + k * 65536;
    }
  }

  lemma SelectBits(w: int, h: int, p: int, c: int)
    requires w == h * 65536 + p * 256 + c && 0 <= p < 256 && 0 <= c < 256
    ensures w / 4 % 64 == c / 4
    ensures w / 16 % 64 == p % 4 * 16 + c / 16
    ensures w / 64 % 64 == p % 16 * 4 + c / 64
    ensures w % 64 == c % 64
  {
    DivMod(w, 4, h * 16384 + p * 64 + c / 4, c % 4);
    DivMod(w / 4, 64, h * 256 + p, c / 4);
    DivMod(w, 16, h * 4096 + p * 16 + c / 16, c % 16);
    DivMod(w / 16, 64, h * 64 + p / 4, p % 4 * 16 + c / 16);
    DivMod(w, 64, h * 1024 + p * 4 + c / 64, c % 64);
    DivMod(w / 64, 64, h * 16 + p / 16, p % 16 * 4 + c / 64);
  }

  lemma FlushBits(w: int, h: int, c: int)
    requires w == h * 256 + c && 0 <= c < 256
    ensures Wrap32(w * 16) % 64 == c % 4 * 16
    ensures Wrap32(w * 4) % 64 == c % 16 * 4
  {
    var k := Wrapped(w * 16);
    DivMod(Wrap32(w * 16), 64, h * 64 + c / 4 + k * 0x400_0000, c % 4 * 16);
    k := Wrapped(w * 4);
    DivMod(Wrap32(w * 4), 64, h * 16 + c / 16 + k * 0x400_0000, c % 16 * 4);
  }

  /** The index taken from work_buff for the `d`-th symbol that byte `k` completes. */
  lemma SelectsGroup(s: string, k: nat, g: nat, r: nat, d: nat)
    requires Bytes(s) && k < |s|
    requires k == 3 * g + r && r < 3 && (d == 0 || (d == 1 && r == 2))
    ensures SelectSix(Accumulated(s[..k + 1]), 2 + r * 2 - d * 6) == Group(s, g, r + d)
  {
    var t := s[..k + 1];
    var h := LowBytes(t);
    SelectBits(Accumulated(t), h, ByteAt(t, k - 1), ByteAt(t, k));
  }

  /** The index of the symbol flushed at the end. */
  lemma FlushesGroup(s: string, g: nat, r: nat)
    requires Bytes(s) && |s| == 3 * g + r && 1 <= r < 3
    ensures SelectSix(ShiftLeft(Accumulated(s), 6 - 2 * r), 0) == Group(s, g, r)
  {
    hide Wrap32, Accumulated;
    var h := LowBytes(s);
    var c := ByteAt(s, |s| - 1);
    FlushBits(Accumulated(s), h * 256 + ByteAt(s, |s| - 2), c);
  }

  lemma AccumulatedNext(s: string, k: nat)
    requires k < |s|
    ensures Accumulated(s[..k + 1]) == ShiftFill(Accumulated(s[..k]), s[k] as int)
  {
    assert s[..k + 1][..k] == s[..k];
  }

  /** The part of the text written after `k` bytes and `d` symbols of the next one. */
  ghost predicate Written(text: string, s: string, idx: nat)
    requires Bytes(s)
  {
    idx <= EncodedLength(|s|) && idx <= |text| && text[..idx] == Encoded(s)[..idx]
  }

  lemma NothingWritten(text: string, s: string)
    requires Bytes(s)
    ensures Written(text, s, 0) && Accumulated(s[..0]) == 0
  {
  }

  lemma AllWritten(text: string, s: string, len: nat)
    requires Bytes(s) && len == EncodedLength(|s|) < |text| && Written(text, s, len)
    ensures text[..len] + [NUL] == Encoded(s) + [NUL] && len == |Encoded(s)|
  {
  }

  lemma WriteSymbol(text: string, s: string, idx: nat, c: char)
    requires Bytes(s) && Written(text, s, idx) && idx < |text|
    requires idx < EncodedLength(|s|) && Encoded(s)[idx] == c
    ensures Written(text[idx := c], s, idx + 1)
  {
  }

  /** How many symbols the byte in position `r` of its group of three completes. */
  function Completed(r: nat): nat {
    if r == 2 then 2 else 1
  }

  lemma Room(n: nat, g: nat, r: nat)
    requires 3 * g + r < n && r < 3
    ensures 4 * g + r + Completed(r) <= EncodedLength(n)
  {
    var _, _ := LengthForm(n);
  }

  /** The inner loop of base64_encode: take every complete 6-bit group from work_buff. */
  method Drain(encoded: array<char>, workBuff: int, filled: nat, idx: nat, ghost s: string, ghost k: nat,
               ghost g: nat, ghost r: nat)
    returns (available: nat, encodedIdx: nat)
    requires Bytes(s) && k == 3 * g + r < |s| && r < 3
    requires workBuff == Accumulated(s[..k + 1])
    requires filled == 8 + 2 * r && idx == 4 * g + r && idx + Completed(r) <= EncodedLength(|s|)
    requires encoded.Length > EncodedLength(|s|) && Written(encoded[..], s, idx)
    modifies encoded
    ensures available == filled - 6 * Completed(r)
    ensures encodedIdx == idx + Completed(r)
    ensures Written(encoded[..], s, encodedIdx)
  {
    hide Accumulated, Symbol, Group, DICT, Encoded, EncodedLength, SelectSix, Written;
    available, encodedIdx := filled, idx;
    ghost var d := 0;
    while available >= 6
      invariant d <= Completed(r) && available == filled - 6 * d
      invariant encodedIdx == idx + d
      invariant Written(encoded[..], s, encodedIdx)
    {
      SelectsGroup(s, k, g, r, d);
      EncodedAt(s, g, r + d);
      var index := SelectSix(workBuff, available - 6);
      DictIsAlphabet(index);
      WriteSymbol(encoded[..], s, encodedIdx, DICT[index]);
      encoded[encodedIdx] := DICT[index];
      encodedIdx := encodedIdx + 1;
      available := available - 6;
      d := d + 1;
    }
  }

  /** The bits left over when the bytes end make one more symbol. */
  method Flush(encoded: array<char>, workBuff: int, available: nat, idx: nat, ghost s: string, ghost g: nat,
               ghost r: nat)
    returns (encodedIdx: nat)
    requires Bytes(s) && |s| == 3 * g + r && r < 3 && workBuff == Accumulated(s)
    requires available == 2 * r && idx == 4 * g + r && EncodedLength(|s|) < encoded.Length
    requires Written(encoded[..], s, idx)
    modifies encoded
    ensures encodedIdx == (if r == 0 then idx else idx + 1)
    ensures 8 * |s| <= 6 * encodedIdx && EncodedLength(|s|) - 4 < encodedIdx <= EncodedLength(|s|)
    ensures Written(encoded[..], s, encodedIdx)
  {
    hide Accumulated, Wrap32, Symbol, Group, DICT, Encoded, EncodedLength, ShiftLeft, SelectSix, Written;
    encodedIdx := idx;
    LengthIs(|s|, g, r);
    if available > 0 {
      FlushesGroup(s, g, r);
      EncodedAt(s, g, r);
      var shifted := ShiftLeft(workBuff, 6 - available);
      var index := SelectSix(shifted, 0);
      DictIsAlphabet(index);
      WriteSymbol(encoded[..], s, encodedIdx, DICT[index]);
      encoded[encodedIdx] := DICT[index];
      encodedIdx := encodedIdx + 1;
    }
  }

  /** The end of base64_encode: '=' up to a multiple of four, then the terminator. */
  method Finish(encoded: array<char>, idx: nat, ghost s: string) returns (encodedIdx: nat)
    requires Bytes(s) && 8 * |s| <= 6 * idx && EncodedLength(|s|) < encoded.Length
    requires EncodedLength(|s|) - 4 < idx && Written(encoded[..], s, idx)
    modifies encoded
    ensures encodedIdx == |Encoded(s)| + 1 <= encoded.Length
    ensures encoded[..encodedIdx] == Encoded(s) + [NUL]
  {
    encodedIdx := idx;
    ghost var quartets := EncodedLength(|s|) / 4;
    while encodedIdx % 4 > 0
      invariant 4 * quartets - 4 < encodedIdx <= 4 * quartets && idx <= encodedIdx
      invariant Written(encoded[..], s, encodedIdx)
      decreases 4 * quartets - encodedIdx
    {
      EncodedIsText(s, encodedIdx);
      WriteSymbol(encoded[..], s, encodedIdx, '=');
      encoded[encodedIdx] := '=';
      encodedIdx := encodedIdx + 1;
    }
    AllWritten(encoded[..], s, encodedIdx);
    encoded[encodedIdx] := NUL;
    encodedIdx := encodedIdx + 1;
  }

  /**
   base64_encode. `original` is a byte array ended by a NUL; the text and its own
   terminator are written to the front of `encoded`.
   */
  method Encode(encoded: array<char>, original: array<char>) returns (encodedIdx: nat)
    requires encoded != original
    requires Bytes(original[..]) && NUL in original[..]
    requires encoded.Length >= |UpToNul(original[..])| * 3 / 2 + 5
    modifies encoded
    ensures var s := UpToNul(old(original[..]));
            && encodedIdx == |Encoded(s)| + 1 <= encoded.Length
            && encoded[..encodedIdx] == Encoded(s) + [NUL]
  {
    hide Accumulated, Wrap32, Symbol, Group, DICT, Encoded, EncodedLength, ShiftLeft, SelectSix, Written;
    ghost var s := UpToNul(original[..]);
    EncodedFits(s);
    NothingWritten(encoded[..], s);
    encodedIdx := 0;
    var workBuff, available, k := 0, 0, 0;
    ghost var g, r := 0, 0;
    while original[k] != NUL
      invariant k <= |s| && original[..] == old(original[..])
      invariant k == 3 * g + r && r < 3
      invariant workBuff == Accumulated(s[..k])
      invariant available == 2 * r && encodedIdx == 4 * g + r
      invariant Written(encoded[..], s, encodedIdx)
      decreases |s| - k
    {
      AccumulatedNext(s, k);
      Room(|s|, g, r);
      workBuff := Wrap32(workBuff * 256);
      workBuff := Wrap32(workBuff + original[k] as int);
      available, encodedIdx := Drain(encoded, workBuff, available + 8, encodedIdx, s, k, g, r);
      k := k + 1;
      g, r := if r == 2 then g + 1 else g, if r == 2 then 0 else r + 1;
    }
    assert s[..k] == s;
    encodedIdx := Flush(encoded, workBuff, available, encodedIdx, s, g, r);
    encodedIdx := Finish(encoded, encodedIdx, s);
  }
}
