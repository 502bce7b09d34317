/** ClientConnection: the pipe that feeds the script's stdin, and the socket's output stream. */
module Connection {
  import opened Response

  datatype ConnectionState =
    ConnectionState(piped: string, toreDownPipes: bool, inputClosed: bool, socketClosed: bool, closed: bool)

  function TornDown(s: ConnectionState): ConnectionState {
    s.(toreDownPipes := true)
  }

  function ClosedAll(s: ConnectionState): ConnectionState {
    if s.closed then s else s.(toreDownPipes := true, inputClosed := true, socketClosed := true, closed := true)
  }

  /**
   What a transfer meets: a pipe that takes it, one whose reader is dead or whose writer is interrupted after some
   bytes, the GServIOException, or none, for another thread tore it down, the NullPointerException.
   */
  datatype PipeFate = Takes | Breaks(after: nat) | Gone

  function Taken(bytes: string, fate: PipeFate): (taken: string)
    ensures taken <= bytes
  {
    match fate
    case Takes => bytes
    case Breaks(n) => if n < |bytes| then bytes[..n] else bytes
    case Gone => ""
  }

  class ClientConnection {
    var piped: string            // what has been written to the pipe
    var toreDownPipes: bool
    var inputClosed: bool
    var socketClosed: bool
    var closed: bool
    const silentExitStatus: bool
    const socketOutput: OutputStream

    ghost function Abs(): ConnectionState
      reads this
    {
      ConnectionState(piped, toreDownPipes, inputClosed, socketClosed, closed)
    }

    /** The socket is closed exactly by close(), which also tears the pipes down. */
    ghost predicate Valid()
      reads this
    {
      (closed <==> socketClosed) && (closed ==> toreDownPipes && inputClosed)
    }

    constructor (socketOutput: OutputStream, silentExitStatus: bool)
      ensures Valid() && Abs() == ConnectionState("", false, false, false, false)
      ensures this.socketOutput == socketOutput && this.silentExitStatus == silentExitStatus
    {
      piped, toreDownPipes, inputClosed, socketClosed, closed := "", false, false, false, false;
      this.socketOutput, this.silentExitStatus := socketOutput, silentExitStatus;
    }

    /** `fate` is what the pipe does, if there is one; the answer is what met the transfer. */
    method TransferStreamRequest(bytes: string, fate: PipeFate) returns (met: PipeFate)
      requires Valid()
      modifies `piped
      ensures met == if toreDownPipes then Gone else fate
      ensures Valid() && Abs() == old(Abs()).(piped := old(piped) + Taken(bytes, met))
    {
      met := if toreDownPipes then Gone else fate;
      piped := piped + Taken(bytes, met);
    }

    method TearDownTransferringPipes()
      requires Valid()
      modifies `toreDownPipes
      ensures Valid() && Abs() == TornDown(old(Abs()))
    {
      if toreDownPipes {
        return;
      }
      toreDownPipes := true;
    }

    /** Closing twice is closing once. */
    method Close()
      requires Valid()
      modifies this
      ensures Valid() && closed && Abs() == ClosedAll(old(Abs()))
    {
      if closed {
        return;
      }
      TearDownTransferringPipes();
      inputClosed := true;
      socketClosed := true;
      closed := true;
    }

    /** False stands for the GServIOException of writing to a closed socket. */
    method SendExit(status: int) returns (ok: bool)
      requires Valid()
      modifies socketOutput
      ensures ok <==> silentExitStatus || !socketClosed
      ensures socketOutput.sent == old(socketOutput.sent)
                                 + if ok && !silentExitStatus then ExitFrame(status) else ""
    {
      assert socketOutput.sent + "" == socketOutput.sent;
      if silentExitStatus {
        return true;
      }
      if socketClosed {
        return false;
      }
      var data := FormatAsExitHeader(status, "");
      socketOutput.Write(data);
      ok := true;
    }
  }
}
