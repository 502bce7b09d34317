/** buf.c: a growable, NUL-terminated byte buffer whose capacity doubles. */
module Buf {
  import opened Text

  const DEFAULT_BUFFER_SIZE: nat := 512

  /** Doubling until `need` bytes fit. */
  function GrowTo(capacity: nat, need: nat): (r: nat)
    requires capacity > 0
    ensures r >= capacity && r >= need
    decreases need - capacity
  {
    if need <= capacity then capacity else GrowTo(2 * capacity, need)
  }

  function Doubled(capacity: nat, k: nat): nat {
    if k == 0 then capacity else 2 * Doubled(capacity, k - 1)
  }

  lemma {:induction false} DoubledFirst(capacity: nat, k: nat)
    ensures Doubled(2 * capacity, k) == 2 * Doubled(capacity, k)
  {
    if k > 0 {
      DoubledFirst(capacity, k - 1);
    }
  }

  /** The capacity is the old one doubled the least sufficient number of times. */
  lemma {:induction false} GrowToIsLeast(capacity: nat, need: nat) returns (k: nat)
    requires capacity > 0
    ensures GrowTo(capacity, need) == Doubled(capacity, k) >= need
    ensures k > 0 ==> Doubled(capacity, k - 1) < need && GrowTo(capacity, need) < 2 * need
    decreases need - capacity
  {
    if need <= capacity {
      k := 0;
    } else {
      k := GrowToIsLeast(2 * capacity, need);
      DoubledFirst(capacity, k);
      if k > 0 {
        DoubledFirst(capacity, k - 1);
      }
      k := k + 1;
    }
  }

  function Max(a: nat, b: nat): nat {
    if a < b then b else a
  }

  /** Growing for one need and then for another is growing once for the larger. */
  lemma {:induction false} GrowTwice(capacity: nat, a: nat, b: nat)
    requires capacity > 0
    ensures GrowTo(GrowTo(capacity, a), b) == GrowTo(capacity, Max(a, b))
    decreases Max(a, b) - capacity
  {
    if capacity < Max(a, b) {
      GrowTwice(2 * capacity, a, b);
      if a <= capacity {
        assert GrowTo(capacity, a) == capacity;
        GrowToNothing(2 * capacity, a);
      }
    }
  }

  lemma GrowToNothing(capacity: nat, need: nat)
    requires capacity > 0 && need <= capacity
    ensures GrowTo(capacity, need) == capacity
  {
  }

  lemma GrowStep(capacity: nat, need: nat)
    requires 0 < capacity < need
    ensures GrowTo(capacity, need) == GrowTo(2 * capacity, need)
  {
  }

  lemma PaddedString(s: string)
    ensures Padded(s, |s| + 1) == s + [NUL]
  {
  }

  /** What vsnprintf leaves at the front of `rest > 0` bytes. */
  function Truncated(text: string, rest: nat): (r: string)
    requires rest > 0
    ensures |r| <= rest
  {
    (if |text| < rest then text else text[..rest - 1]) + [NUL]
  }

  lemma Untruncated(text: string, rest: nat)
    requires |text| < rest
    ensures Truncated(text, rest) == text + [NUL]
  {
  }

  // ----- sequences of operations -----

  datatype Op = Copy(s: string) | Add(s: string) | Print(s: string)

  /** The text before the first NUL and the capacity: all that the operations depend on. */
  datatype Model = Model(text: string, capacity: nat)

  function TextAfter(text: string, op: Op): string {
    if op.Copy? then op.s else text + op.s
  }

  function Step(m: Model, op: Op): Model
    requires m.capacity > 0
  {
    var text := TextAfter(m.text, op);
    Model(text, GrowTo(m.capacity, |text| + 1))
  }

  lemma StepAppends(m: Model, s: string)
    requires m.capacity > 0
    ensures Step(m, Op.Add(s)) == Step(m, Print(s)) == Model(m.text + s, GrowTo(m.capacity, |m.text| + |s| + 1))
  {
  }

  function Run(m: Model, ops: seq<Op>): (r: Model)
    requires m.capacity > 0
    ensures r.capacity > 0
    decreases |ops|
  {
    if ops == [] then m else Step(Run(m, ops[..|ops| - 1]), ops[|ops| - 1])
  }

  /** The operations since the last copy; a copy forgets what was there. */
  function Texts(ops: seq<Op>): seq<string> {
    if ops == [] then []
    else if ops[|ops| - 1].Copy? then [ops[|ops| - 1].s]
    else Texts(ops[..|ops| - 1]) + [ops[|ops| - 1].s]
  }

  predicate HasCopy(ops: seq<Op>) {
    exists i :: 0 <= i < |ops| && ops[i].Copy?
  }

  /** The most bytes, terminator included, that any point of the run needs. */
  function Need(m: Model, ops: seq<Op>): nat
    requires m.capacity > 0
    decreases |ops|
  {
    if ops == [] then 0 else Max(Need(m, ops[..|ops| - 1]), |Run(m, ops).text| + 1)
  }

  lemma HasCopySnoc(ops: seq<Op>)
    requires ops != []
    ensures HasCopy(ops) <==> ops[|ops| - 1].Copy? || HasCopy(ops[..|ops| - 1])
  {
    var before := ops[..|ops| - 1];
    if HasCopy(before) {
      var i :| 0 <= i < |before| && before[i].Copy?;
      assert ops[i].Copy?;
    }
    if HasCopy(ops) && !ops[|ops| - 1].Copy? {
      var i :| 0 <= i < |ops| && ops[i].Copy?;
      assert before[i].Copy?;
    }
  }

  /** The text after any operations is what was written since the last copy, in order. */
  lemma {:induction false} RunIsConcatenation(m: Model, ops: seq<Op>)
    requires m.capacity > 0
    ensures Run(m, ops).text == (if HasCopy(ops) then "" else m.text) + Concat(Texts(ops))
    decreases |ops|
  {
    if ops != [] {
      var before, s := ops[..|ops| - 1], ops[|ops| - 1].s;
      RunIsConcatenation(m, before);
      HasCopySnoc(ops);
      hide HasCopy, GrowTo;
      assert Concat([s]) == s by {
        assert [s][1..] == [];
      }
      ConcatAppend(Texts(before), [s]);
      Assoc(if HasCopy(before) then "" else m.text, Concat(Texts(before)), s);
    }
  }

  /** The capacity after any operations depends only on the largest need among them. */
  lemma {:induction false} RunCapacity(m: Model, ops: seq<Op>)
    requires m.capacity > 0
    ensures Run(m, ops).capacity == GrowTo(m.capacity, Need(m, ops))
    decreases |ops|
  {
    if ops == [] {
      GrowToNothing(m.capacity, 0);
    } else {
      RunCapacity(m, ops[..|ops| - 1]);
      GrowTwice(m.capacity, Need(m, ops[..|ops| - 1]), |Run(m, ops).text| + 1);
    }
  }

  // ----- the buffer -----

  /**
   buf_strnlen: counts up to the first NUL, at most `n`. The caller owes it a NUL or
   `n + 1` readable bytes.
   */
  method StrNLen(str: array<char>, n: nat) returns (result: nat)
    requires n < str.Length || NUL in str[..]
    ensures var i := IndexOf(str[..], NUL); result == if i < n then i else n
  {
    result := 0;
    while str[result] != NUL
      invariant result <= n && result < str.Length
      invariant forall j :: 0 <= j < result ==> str[..][j] != NUL
      decreases n - result
    {
      assert str[..][result] != NUL;
      result := result + 1;
      if result > n {
        return n;
      }
    }
    assert str[..][result] == NUL;
  }

  class Buffer {
    var size: nat
    var bufferSize: nat
    var buffer: array<char>

    ghost predicate Allocated()
      reads this
    {
      buffer.Length == bufferSize > 0 && size <= bufferSize
    }

    /** Nothing written yet, or text with one NUL, at the end. */
    ghost predicate Valid()
      reads this, buffer
    {
      Allocated() && (size > 0 ==> buffer[size - 1] == NUL && NUL !in buffer[..size - 1])
    }

    ghost function Abs(): Model
      reads this, buffer
      requires Valid()
    {
      Model(if size == 0 then "" else buffer[..size - 1], bufferSize)
    }

    /** buf_new without an initial text. */
    constructor (capacity: nat)
      ensures Valid() && fresh(buffer) && size == 0
      ensures bufferSize == if capacity == 0 then DEFAULT_BUFFER_SIZE else capacity
    {
      var c := if capacity == 0 then DEFAULT_BUFFER_SIZE else capacity;
      size, bufferSize, buffer := 0, c, new char[c];
    }

    /** realloc: the old bytes, then bytes of no particular value. */
    method Realloc()
      requires 0 < buffer.Length <= bufferSize
      modifies `buffer
      ensures fresh(buffer) && buffer.Length == bufferSize
      ensures buffer[..old(buffer.Length)] == old(buffer[..])
    {
      var larger := new char[bufferSize];
      forall i | 0 <= i < buffer.Length {
        larger[i] := buffer[i];
      }
      buffer := larger;
    }

    method OffsNCopy(offs: nat, str: string, n: nat)
      requires Allocated()
      modifies this
      ensures Allocated() && fresh(buffer)
      ensures size == offs + n && bufferSize == GrowTo(old(bufferSize), offs + n)
      ensures buffer[offs..size] == Padded(str, n)
      ensures forall i :: 0 <= i < offs && i < old(bufferSize) ==> buffer[i] == old(buffer[i])
    {
      while offs + n > bufferSize
        invariant buffer == old(buffer) && size == old(size) && buffer.Length <= bufferSize
        invariant GrowTo(bufferSize, offs + n) == GrowTo(old(bufferSize), offs + n)
        decreases offs + n - bufferSize
      {
        bufferSize := bufferSize * 2;
      }
      Realloc();
      assert forall i :: 0 <= i < old(bufferSize) ==> buffer[i] == buffer[..old(buffer.Length)][i];
      var source := Padded(str, n);
      forall i | offs <= i < offs + n {
        buffer[i] := source[i - offs];
      }
      size := offs + n;
    }

    method StrCopy(str: string)
      requires Valid() && CString(str)
      modifies this
      ensures Valid() && fresh(buffer) && size == |str| + 1
      ensures Abs() == Step(old(Abs()), Copy(str))
    {
      OffsNCopy(0, str, |str| + 1);
      assert buffer[..size] == str + [NUL];
      assert buffer[..size - 1] == buffer[..size][..size - 1] == str;
    }

    /** The length buf_add and buf_printf find is that of the text written so far. */
    method Length() returns (n: nat)
      requires Valid()
      ensures n == |Abs().text|
    {
      assert size > 0 ==> buffer[..][size - 1] == NUL;
      assert forall j :: 0 <= j < size - 1 ==> buffer[..][j] == buffer[..size - 1][j];
      n := StrNLen(buffer, size);
    }

    method Add(str: string)
      requires Valid() && CString(str)
      modifies this
      ensures Valid() && fresh(buffer) && size == |old(Abs().text)| + |str| + 1
      ensures Abs() == Step(old(Abs()), Op.Add(str))
    {
      hide GrowTo, Padded, Step;
      var offs := Length();
      ghost var text := Abs().text;
      StepAppends(Abs(), str);
      OffsNCopy(offs, str, |str| + 1);
      PaddedString(str);
      assert buffer[..offs] == text;
      TextThenNul(text, str);
    }

    /** A buffer holding `text + str` and a NUL is valid and says so. */
    lemma TextThenNul(text: string, str: string)
      requires CString(text) && CString(str)
      requires Allocated() && size == |text| + |str| + 1
      requires buffer[..|text|] == text && buffer[|text|..size] == str + [NUL]
      ensures Valid() && Abs() == Model(text + str, bufferSize)
    {
      assert buffer[..size] == buffer[..|text|] + buffer[|text|..size];
      assert buffer[..size - 1] == text + str;
      assert buffer[size - 1] == buffer[|text|..size][|str|];
    }

    /** vsnprintf into the bytes from `offs`; `text` is the formatted output. */
    method VSNPrintf(offs: nat, rest: nat, text: string) returns (length: nat)
      requires offs + rest == buffer.Length
      modifies buffer
      ensures length == |text|
      ensures buffer[..offs] == old(buffer[..offs])
      ensures rest > 0 ==> buffer[offs..offs + |Truncated(text, rest)|] == Truncated(text, rest)
    {
      if rest > 0 {
        var out := Truncated(text, rest);
        forall i | offs <= i < offs + |out| {
          buffer[i] := out[i - offs];
        }
      }
      length := |text|;
    }

    /** A retry's larger buffer; the first `offs` bytes are written already. */
    method Double(offs: nat)
      requires 0 < buffer.Length == bufferSize && offs <= bufferSize
      modifies this
      ensures fresh(buffer) && buffer.Length == bufferSize == 2 * old(bufferSize) && size == old(size)
      ensures buffer[..offs] == old(buffer[..offs])
    {
      ghost var before := buffer[..];
      bufferSize := bufferSize * 2;
      Realloc();
      assert buffer[..offs] == before[..offs];
    }

    method OffsVPrintf(offs: nat, text: string)
      requires Allocated() && offs <= bufferSize
      modifies this, buffer
      ensures Allocated() && (buffer == old(buffer) || fresh(buffer))
      ensures size == offs + |text| + 1 && bufferSize == GrowTo(old(bufferSize), size)
      ensures buffer[..offs] == old(buffer[..offs])
      ensures buffer[offs..size] == text + [NUL]
    {
      hide Truncated, GrowTo;
      ghost var need := offs + |text| + 1;
      var rest := bufferSize - offs;
      var length := VSNPrintf(offs, rest, text);
      while length >= rest
        invariant length == |text| && rest == bufferSize - offs && buffer.Length == bufferSize > 0
        invariant buffer == old(buffer) || fresh(buffer)
        invariant buffer[..offs] == old(buffer[..offs])
        invariant rest > 0 ==> buffer[offs..offs + |Truncated(text, rest)|] == Truncated(text, rest)
        invariant GrowTo(bufferSize, need) == GrowTo(old(bufferSize), need)
        decreases need - bufferSize
      {
        GrowStep(bufferSize, need);
        Double(offs);
        rest := bufferSize - offs;
        length := VSNPrintf(offs, rest, text);
      }
      Untruncated(text, rest);
      GrowToNothing(bufferSize, need);
      size := offs + length + 1;
    }

    /** buf_printf of a formatted text: same text, size and capacity as Add, whatever the retries left. */
    method Printf(text: string)
      requires Valid() && CString(text)
      modifies this, buffer
      ensures Valid() && (buffer == old(buffer) || fresh(buffer))
      ensures size == |old(Abs().text)| + |text| + 1
      ensures Abs() == Step(old(Abs()), Print(text))
    {
      hide GrowTo, Step;
      var offs := Length();
      ghost var before := Abs().text;
      StepAppends(Abs(), text);
      OffsVPrintf(offs, text);
      assert buffer[..offs] == before;
      TextThenNul(before, text);
    }

    /** Any sequence of operations runs as the model says. */
    method Apply(ops: seq<Op>)
      requires Valid() && forall i :: 0 <= i < |ops| ==> CString(ops[i].s)
      modifies this, buffer
      ensures Valid() && (buffer == old(buffer) || fresh(buffer))
      ensures Abs() == Run(old(Abs()), ops)
      ensures ops != [] ==> size == |Abs().text| + 1
    {
      for i := 0 to |ops|
        invariant Valid() && (buffer == old(buffer) || fresh(buffer))
        invariant Abs() == Run(old(Abs()), ops[..i])
        invariant i > 0 ==> size == |Abs().text| + 1
      {
        assert ops[..i + 1][..i] == ops[..i];
        match ops[i]
        case Copy(s) => StrCopy(s);
        case Add(s) => Add(s);
        case Print(s) => Printf(s);
      }
      assert ops[..|ops|] == ops;
    }
  }
}
