/**
 A connected byte stream. `rest` is what the peer has sent and nobody has read yet;
 `picks` stands for the operating system, which decides how much a bulk read delivers.
 A read at the end of `rest` is the end of the stream, or an I/O error when the connection is broken.
 */
module Sockets {
  import opened Text

  /** How much of `available` bytes a read of at most `want` bytes returns: at least one if it can. */
  function Delivered(want: nat, available: nat, pick: nat): (k: nat)
    ensures k <= want && k <= available
    ensures want > 0 && available > 0 ==> k > 0
    ensures pick >= want && available >= want ==> k == want
  {
    var most := if want < available then want else available;
    if most == 0 then 0 else if pick == 0 then 1 else if pick < most then pick else most
  }

  class Socket {
    var rest: string
    var calls: nat
    var failed: bool         // the last read was an I/O error
    const picks: nat -> nat
    const broken: bool

    constructor (input: string, picks: nat -> nat, broken: bool)
      ensures rest == input && calls == 0 && this.picks == picks && this.broken == broken
    {
      rest, calls, failed, this.picks, this.broken := input, 0, false, picks, broken;
    }

    method ReadByte() returns (c: Option<char>)
      modifies `rest, `failed
      ensures failed <==> broken && old(rest) == ""
      ensures old(rest) == "" ==> c == None && rest == ""
      ensures old(rest) != "" ==> c == Some(old(rest)[0]) && rest == old(rest)[1..]
    {
      failed := broken && rest == "";
      if rest == "" {
        c := None;
      } else {
        c, rest := Some(rest[0]), rest[1..];
      }
    }

    method Read(want: nat) returns (chunk: string)
      modifies this
      ensures failed <==> broken && old(rest) == "" && want > 0
      ensures |chunk| == Delivered(want, |old(rest)|, picks(old(calls)))
      ensures chunk + rest == old(rest) && calls == old(calls) + 1
    {
      failed := broken && rest == "" && want > 0;
      var k := Delivered(want, |rest|, picks(calls));
      chunk, rest, calls := rest[..k], rest[k..], calls + 1;
    }
  }
}
