/**
`LinuxNetUtil::RecvData`: reads a non-blocking socket until it has nothing more
to give, and decides from `errno` whether that is an error.
*/
module SocketReceive {

  const EINTR := 4
  const EAGAIN := 11
  const EWOULDBLOCK := EAGAIN
  const RECV_BUFF_LEN := 10240

  /** What one call of `recv` meets. Only a failure writes `errno`. */
  datatype Call =
    | Data(bytes: seq<bv8>)
    | PeerClosed
    | Failed(error: int)

  /** The calls still to come; after the last one the socket is empty and open. */
  type Script = seq<Call>

  /** The kernel hands over between one byte and a full buffer at a time. */
  ghost predicate WellFormed(script: Script) {
    forall i :: 0 <= i < |script| && script[i].Data? ==> 1 <= |script[i].bytes| <= RECV_BUFF_LEN
  }

  function Next(script: Script): Call {
    if |script| == 0 then Failed(EAGAIN) else script[0]
  }

  class Socket {
    var script: Script
    /** The thread's errno cell. */
    var errno: int

    constructor (script: Script, errno: int)
      ensures this.script == script && this.errno == errno
    {
      this.script := script;
      this.errno := errno;
    }

    method Recv(buf: array<bv8>, len: nat) returns (ret: int)
      requires WellFormed(script) && RECV_BUFF_LEN <= len <= buf.Length
      modifies this, buf
      ensures WellFormed(script)
      ensures script == if |old(script)| == 0 then [] else old(script)[1..]
      ensures match Next(old(script))
              case Data(bytes) => ret == |bytes| && errno == old(errno) && buf[..|bytes|] == bytes
              case PeerClosed => ret == 0 && errno == old(errno)
              case Failed(e) => ret == -1 && errno == e
    {
      var call := Next(script);
      if |script| > 0 {
        script := script[1..];
      }
      match call
      case Data(bytes) =>
        forall i | 0 <= i < |bytes| {
          buf[i] := bytes[i];
        }
        ret := |bytes|;
      case PeerClosed =>
        ret := 0;
      case Failed(e) =>
        errno := e;
        ret := -1;
    }
  }

  class ByteVector {
    var data: seq<bv8>

    constructor ()
      ensures data == []
    {
      data := [];
    }

    method PushBack(b: bv8)
      modifies this
      ensures data == old(data) + [b]
    {
      data := data + [b];
    }
  }

  // ------------------------------------------------------------------ specification

  /** All bytes handed over before the first call that brings none. */
  function Received(script: Script): seq<bv8>
    decreases |script|
  {
    if Next(script).Data? then script[0].bytes + Received(script[1..]) else []
  }

  /** The first call that brings no bytes. */
  function Stop(script: Script): (c: Call)
    ensures !c.Data?
    decreases |script|
  {
    if Next(script).Data? then Stop(script[1..]) else Next(script)
  }

  /** What is left for the next reader. */
  function Unread(script: Script): Script
    decreases |script|
  {
    if Next(script).Data? then Unread(script[1..]) else if |script| == 0 then [] else script[1..]
  }

  /** `errno` when the loop looks at it: written by a failure, left over otherwise. */
  function ErrnoAtStop(script: Script, errno: int): int {
    match Stop(script)
    case Failed(e) => e
    case _ => errno
  }

  predicate StopIsError(script: Script, errno: int) {
    match Stop(script)
    case Failed(e) => e != EAGAIN && e != EWOULDBLOCK
    case _ => errno != EINTR && errno != 0
  }

  /** How many calls bring bytes before the first that brings none. */
  function DataCalls(script: Script): (n: nat)
    ensures n <= |script|
    decreases |script|
  {
    if Next(script).Data? then 1 + DataCalls(script[1..]) else 0
  }

  /** The bytes of some calls, one after the other. */
  function Bytes(data: Script): seq<bv8>
    requires forall i :: 0 <= i < |data| ==> data[i].Data?
    decreases |data|
  {
    if |data| == 0 then [] else data[0].bytes + Bytes(data[1..])
  }

  /** The calls that one RecvData makes: those that bring bytes and the one that does not. */
  lemma {:induction false} CallsUsed(script: Script)
    ensures var n := DataCalls(script);
            && (forall i :: 0 <= i < n ==> script[i].Data?)
            && (n < |script| ==> !script[n].Data? && script[n] == Stop(script))
            && (n == |script| ==> Stop(script) == Failed(EAGAIN))
            && Unread(script) == (if n < |script| then script[n + 1..] else [])
            && Received(script) == Bytes(script[..n])
    decreases |script|
  {
    if Next(script).Data? {
      hide Received, Stop, Unread, Bytes;
      var n := DataCalls(script);
      OneCall(script);
      CallsUsed(script[1..]);
      assert forall i :: 1 <= i < n ==> script[i] == script[1..][i - 1];
      assert script[..n][1..] == script[1..][..n - 1];
      assert n < |script| ==> script[1..][n..] == script[n + 1..];
      assert Bytes(script[..n]) == script[0].bytes + Bytes(script[..n][1..]) by {
        FirstBytes(script[..n]);
      }
    }
  }

  lemma FirstBytes(data: Script)
    requires |data| > 0 && forall i :: 0 <= i < |data| ==> data[i].Data?
    ensures Bytes(data) == data[0].bytes + Bytes(data[1..])
  {
  }

  lemma OneCall(script: Script)
    ensures if Next(script).Data? then
              && Received(script) == script[0].bytes + Received(script[1..])
              && Stop(script) == Stop(script[1..]) && Unread(script) == Unread(script[1..])
            else
              && Received(script) == [] && Stop(script) == Next(script)
              && Unread(script) == (if |script| == 0 then [] else script[1..])
  {
  }

  // ------------------------------------------------------------------------ the loop

  /**
  Appends exactly the bytes before the first empty-handed call to what the
  vector held, returns -1 exactly on an error, and only then writes the error. Of
  the script it uses the calls that bring bytes and the one after them, and no more.
  */
  method RecvData(sock: Socket, outRecvData: ByteVector, errnoIn: int) returns (result: int, outErrno: int)
    requires WellFormed(sock.script)
    modifies sock, outRecvData
    ensures outRecvData.data == old(outRecvData.data) + Received(old(sock.script))
    ensures sock.script == Unread(old(sock.script))
    ensures var script, n := old(sock.script), DataCalls(old(sock.script));
            && (forall i :: 0 <= i < n ==> script[i].Data?) && (n < |script| ==> !script[n].Data?)
            && sock.script == (if n < |script| then script[n + 1..] else [])
            && outRecvData.data == old(outRecvData.data) + Bytes(script[..n])
    ensures sock.errno == ErrnoAtStop(old(sock.script), old(sock.errno))
    ensures result == (if StopIsError(old(sock.script), old(sock.errno)) then -1 else 0)
    ensures outErrno == (if result == -1 then sock.errno else errnoIn)
    ensures result == -1 <==> match Stop(old(sock.script))
                              case Failed(error) => error != 11
                              case _ => old(sock.errno) != 0 && old(sock.errno) != 4
  {
    hide Received, Stop, Unread, DataCalls, Bytes;
    CallsUsed(sock.script);
    outErrno := errnoIn;
    var ret := 0;
    var recvBuf := new bv8[RECV_BUFF_LEN];
    ghost var before := outRecvData.data;
    while ret >= 0
      invariant WellFormed(sock.script) && sock.errno == old(sock.errno) && ret >= 0
      invariant outRecvData.data + Received(sock.script) == before + Received(old(sock.script))
      invariant Stop(sock.script) == Stop(old(sock.script))
      invariant Unread(sock.script) == Unread(old(sock.script))
      decreases |sock.script|
    {
      forall i | 0 <= i < recvBuf.Length {
        recvBuf[i] := 0;
      }
      ghost var script := sock.script;
      OneCall(script);
      ret := sock.Recv(recvBuf, RECV_BUFF_LEN);
      if ret == 0 {
        var iErr := sock.errno;
        if iErr == EINTR || iErr == 0 {
          return 0, outErrno;
        }
        return -1, iErr;
      } else if ret < 0 {
        var iErr := sock.errno;
        if iErr == EAGAIN || iErr == EWOULDBLOCK {
          return 0, outErrno;
        }
        return -1, iErr;
      } else {
        ghost var held := outRecvData.data;
        for i := 0 to ret
          invariant ret == |script[0].bytes| && recvBuf[..ret] == script[0].bytes
          invariant outRecvData.data == held + recvBuf[..i]
          invariant sock.script == script[1..] && sock.errno == old(sock.errno)
        {
          outRecvData.PushBack(recvBuf[i]);
          assert recvBuf[..i + 1] == recvBuf[..i] + [recvBuf[i]];
        }
        assert outRecvData.data == held + script[0].bytes;
      }
    }
    return 0, outErrno;
  }

  // ------------------------------------------------------------- what can be told apart

  /**
  An orderly close by the peer is reported if and only if some earlier system
  call of the thread happens to have left a value other than 0 and EINTR behind.
  */
  lemma CloseReportedExactly(data: Script, rest: Script, errno: int)
    requires forall i :: 0 <= i < |data| ==> data[i].Data?
    ensures StopIsError(data + [PeerClosed] + rest, errno) <==> errno != 0 && errno != 4
  {
    StopAfterData(data, [PeerClosed] + rest);
    assert data + [PeerClosed] + rest == data + ([PeerClosed] + rest);
  }

  lemma {:induction false} StopAfterData(data: Script, rest: Script)
    requires forall i :: 0 <= i < |data| ==> data[i].Data?
    ensures Stop(data + rest) == Stop(rest) && Unread(data + rest) == Unread(rest)
    ensures Received(data + rest) == Received(data) + Received(rest)
    decreases |data|
  {
    if |data| == 0 {
      assert data + rest == rest;
    } else {
      hide Stop, Unread, Received;
      assert (data + rest)[1..] == data[1..] + rest;
      StopAfterData(data[1..], rest);
      OneCall(data + rest);
      OneCall(data);
    }
  }

  /** Exactly one call beyond those that bring bytes is used: the rest is left for the next reader. */
  lemma UnreadIsTheRest(data: Script, c: Call, rest: Script)
    requires (forall i :: 0 <= i < |data| ==> data[i].Data?) && !c.Data?
    ensures Unread(data + [c] + rest) == rest && Stop(data + [c] + rest) == c
    ensures Received(data + [c] + rest) == Bytes(data)
  {
    var script := data + [c] + rest;
    CallsUsed(script);
    assert script[|data|] == c;
    assert forall i :: 0 <= i < |data| ==> script[i] == data[i];
    assert DataCalls(script) == |data|;
    assert script[..|data|] == data && script[|data| + 1..] == rest;
  }

  /** Two calls in a row append what both scripts bring, and the second goes on where the first stopped. */
  lemma TwoCallsInARow(data: Script, c: Call, more: Script, d: Call, rest: Script)
    requires (forall i :: 0 <= i < |data| ==> data[i].Data?) && !c.Data?
    requires (forall i :: 0 <= i < |more| ==> more[i].Data?) && !d.Data?
    ensures var script := data + [c] + (more + [d] + rest);
            && Received(script) + Received(Unread(script)) == Bytes(data) + Bytes(more)
            && Stop(script) == c && Stop(Unread(script)) == d && Unread(Unread(script)) == rest
  {
    UnreadIsTheRest(data, c, more + [d] + rest);
    UnreadIsTheRest(more, d, rest);
  }

  /** `errno` after further system calls of the thread, of which some wrote it. */
  function LastWritten(errno: int, writes: seq<int>): int {
    if |writes| == 0 then errno else writes[|writes| - 1]
  }

  /**
  After a call that ran the socket dry the next orderly close on the same thread
  is reported exactly if the last value written to errno in between, if any, is
  neither 0 nor EINTR; then it is reported under that value, and under EAGAIN if
  nothing was written.
  */
  lemma CloseReportedAfterDrain(first: Script, errno: int, writes: seq<int>, data: Script, rest: Script)
    requires Stop(first) == Failed(EAGAIN)
    requires forall i :: 0 <= i < |data| ==> data[i].Data?
    ensures var e, second := LastWritten(ErrnoAtStop(first, errno), writes), data + [PeerClosed] + rest;
            && (StopIsError(second, e) <==> e != 0 && e != EINTR)
            && ErrnoAtStop(second, e) == e
            && (writes == [] ==> StopIsError(second, e) && e == EAGAIN)
  {
    var e := LastWritten(ErrnoAtStop(first, errno), writes);
    CloseReportedExactly(data, rest, e);
    StopAfterData(data, [PeerClosed] + rest);
    assert data + [PeerClosed] + rest == data + ([PeerClosed] + rest);
  }

  /** An interrupted wait between the two calls is enough to hide the close. */
  lemma InterruptedWaitHidesClose(first: Script, errno: int, writes: seq<int>, data: Script, rest: Script)
    requires Stop(first) == Failed(EAGAIN)
    requires forall i :: 0 <= i < |data| ==> data[i].Data?
    ensures !StopIsError(data + [PeerClosed] + rest, LastWritten(ErrnoAtStop(first, errno), writes + [EINTR]))
  {
    CloseReportedAfterDrain(first, errno, writes + [EINTR], data, rest);
  }
}
