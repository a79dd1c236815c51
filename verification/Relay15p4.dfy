/**
 * The relay between the 15.4 radio behind the controller and a local socket: one
 * session at a time, and frames that pass in both directions.
 */
module Relay15p4 {
  import opened Bytes

  const AML_15P4_SOCKET_SIZE := 256
  const HCI_ZIGBEE_FLAG: byte := 0x10
  const MHDL: byte := 0xfa

  // ----- sessions -----

  datatype Message = CloseRequest | ChipFunctionQuery | RadioFrame | OtherMessage

  /**
   * What one turn of the server loop meets: `select`, the two descriptors, the
   * result of `accept` (-1 on failure) and of `recv`, and the message received.
   */
  datatype Turn = Turn(
    ready: bool, listenError: bool, incoming: bool, accepted: int,
    sessionError: bool, readable: bool, received: int, message: Message)
  {
    /** A new connection takes the place of the session. */
    predicate Accepts() {
      ready && !listenError && incoming && accepted != -1
    }

    /** The session, if there is one, ends by an error or on request. */
    predicate Ends() {
      ready && !listenError && !incoming && (sessionError || (readable && received > 0 && message == CloseRequest))
    }

    /** The server gives up. */
    predicate Stops(session: int) {
      ready && (listenError || (incoming && accepted == -1)
                || (!incoming && session != -1 && !sessionError && readable && received < 0))
    }

    /** `accept` returns -1 or a descriptor that is not open. */
    predicate Possible(session: int) {
      Accepts() ==> accepted >= 0 && accepted != session
    }
  }

  function SessionAfter(session: int, t: Turn): int {
    if t.Accepts() then t.accepted else if t.Ends() then -1 else session
  }

  /** The session after the first `n` turns, none of which stops the server. */
  function SessionOver(session: int, turns: seq<Turn>, n: nat): int
    requires n <= |turns|
  {
    if n == 0 then session else SessionAfter(SessionOver(session, turns, n - 1), turns[n - 1])
  }

  /** What the first `n` turns accept. */
  function AcceptedIn(turns: seq<Turn>, n: nat): seq<int>
    requires n <= |turns|
  {
    if n == 0 then []
    else AcceptedIn(turns, n - 1) + if turns[n - 1].Accepts() then [turns[n - 1].accepted] else []
  }

  predicate StopsAt(session: int, turns: seq<Turn>, i: nat)
    requires i < |turns|
  {
    turns[i].Stops(SessionOver(session, turns, i))
  }

  ghost predicate Reaches(session: int, turns: seq<Turn>, n: nat)
    requires n <= |turns|
  {
    forall i :: 0 <= i < n ==> !StopsAt(session, turns, i)
  }

  /** Exactly the first `n` turns are dealt with before the server gives up or is told to exit. */
  ghost predicate Handles(session: int, turns: seq<Turn>, n: nat) {
    n <= |turns| && Reaches(session, turns, n) && (n < |turns| ==> StopsAt(session, turns, n))
  }

  predicate PossibleAt(session: int, turns: seq<Turn>, i: nat)
    requires i < |turns|
  {
    turns[i].Possible(SessionOver(session, turns, i))
  }

  /** As far as they are reached, the turns are what a kernel can deliver. */
  ghost predicate AllPossible(session: int, turns: seq<Turn>) {
    forall i :: 0 <= i < |turns| && Reaches(session, turns, i) ==> PossibleAt(session, turns, i)
  }

  /** An accepting or ending turn after which no other follows decides the session. */
  lemma {:induction false} LastChangeDecides(session: int, turns: seq<Turn>, n: nat, k: nat)
    requires k < n <= |turns| && (turns[k].Accepts() || turns[k].Ends())
    requires forall j :: k < j < n ==> !turns[j].Accepts() && !turns[j].Ends()
    ensures SessionOver(session, turns, n) == if turns[k].Accepts() then turns[k].accepted else -1
  {
    if k < n - 1 {
      LastChangeDecides(session, turns, n - 1, k);
    }
  }

  /**
   * The server leaves its session field behind when it exits. The field names no
   * session, as the next run needs it, exactly if every connection was followed by an
   * end of the session.
   */
  lemma {:induction false} CleanExit(turns: seq<Turn>, n: nat)
    requires n <= |turns|
    ensures SessionOver(-1, turns, n) == -1 <==>
            forall i :: 0 <= i < n && turns[i].Accepts() ==> exists j :: i < j < n && turns[j].Ends()
  {
    if n > 0 {
      CleanExit(turns, n - 1);
      if turns[n - 1].Accepts() {
        // no turn is left to end this session
      } else if turns[n - 1].Ends() {
        assert forall i :: 0 <= i < n && turns[i].Accepts() ==> i < n - 1 < n && turns[n - 1].Ends();
      } else {
        assert forall j :: 0 <= j < n && turns[j].Ends() ==> j < n - 1;
      }
    }
  }

  class Server {
    var sessionSocket: int
    /** The session descriptors that are open, and all that were ever accepted and closed, in order. */
    ghost var live: set<int>
    ghost var acceptedFds: seq<int>
    ghost var closedFds: seq<int>

    /** The field names the only open session, or none, and all others have been closed in the order they came. */
    ghost predicate Consistent()
      reads this
    {
      && live == (if sessionSocket == -1 then {} else {sessionSocket})
      && acceptedFds == closedFds + if sessionSocket == -1 then [] else [sessionSocket]
    }

    constructor ()
      ensures Consistent() && sessionSocket == -1 && acceptedFds == []
    {
      sessionSocket, live, acceptedFds, closedFds := -1, {}, [], [];
    }

    /** Closing a descriptor that is not open is an error. */
    method Close(fd: int)
      requires fd in live
      modifies `live, `closedFds
      ensures live == old(live) - {fd} && closedFds == old(closedFds) + [fd]
    {
      live := live - {fd};
      closedFds := closedFds + [fd];
    }

    /** A descriptor that `accept` returned; it differs from every open one. */
    method Accepted(fd: int)
      requires fd >= 0 && fd !in live
      modifies `live, `acceptedFds
      ensures live == old(live) + {fd} && acceptedFds == old(acceptedFds) + [fd]
    {
      live := live + {fd};
      acceptedFds := acceptedFds + [fd];
    }

    /** One turn; the result says whether the loop goes on. */
    method ServeTurn(t: Turn) returns (goOn: bool)
      requires Consistent() && t.Possible(sessionSocket)
      modifies this
      ensures Consistent()
      ensures goOn <==> !t.Stops(old(sessionSocket))
      ensures sessionSocket == SessionAfter(old(sessionSocket), t)
      ensures acceptedFds == old(acceptedFds) + if t.Accepts() then [t.accepted] else []
      ensures sessionSocket
           == if !t.ready || t.listenError then old(sessionSocket)
              else if t.incoming then if t.accepted == -1 then old(sessionSocket) else t.accepted
              else if t.sessionError || (t.readable && t.received > 0 && t.message == CloseRequest) then -1
              else old(sessionSocket)
      ensures goOn <==>
              || !t.ready
              || (!t.listenError && t.incoming && t.accepted != -1)
              || (!t.listenError && !t.incoming
                  && (old(sessionSocket) == -1 || t.sessionError || !t.readable || t.received >= 0))
    {
      if !t.ready {
        return true;
      }
      if t.listenError {
        return false;
      }
      if t.incoming {
        if t.accepted == -1 {
          return false;
        }
        Accepted(t.accepted);
        if sessionSocket != -1 {
          Close(sessionSocket);
        }
        sessionSocket := t.accepted;
        // the descriptor sets were filled before this session existed
        return true;
      }
      if sessionSocket != -1 && t.sessionError {
        Close(sessionSocket);
        sessionSocket := -1;
      }
      if sessionSocket != -1 && t.readable {
        if t.received < 0 {
          return false;
        }
        if t.received > 0 && t.message == CloseRequest {
          Close(sessionSocket);
          sessionSocket := -1;
        }
      }
      return true;
    }

    /**
     * The server loop, from a state without a session. It handles the turns up to the
     * first that stops it; it has then accepted exactly the descriptors of those turns,
     * and closed each of them once, in the same order. The field is left
     * behind as the turns made it.
     */
    method Serve(turns: seq<Turn>) returns (handled: nat)
      requires Consistent() && sessionSocket == -1 && AllPossible(-1, turns)
      modifies this
      ensures Handles(-1, turns, handled)
      ensures sessionSocket == SessionOver(-1, turns, handled)
      ensures acceptedFds == old(acceptedFds) + AcceptedIn(turns, handled)
      ensures closedFds == acceptedFds && live == {}
    {
      handled := 0;
      while handled < |turns|
        invariant handled <= |turns| && Consistent() && Reaches(-1, turns, handled)
        invariant sessionSocket == SessionOver(-1, turns, handled)
        invariant acceptedFds == old(acceptedFds) + AcceptedIn(turns, handled)
      {
        assert PossibleAt(-1, turns, handled);
        var goOn := ServeTurn(turns[handled]);
        if !goOn {
          break;
        }
        handled := handled + 1;
      }
      if sessionSocket != -1 {
        Close(sessionSocket);
      }
    }
  }

  // ----- frames -----

  /** A frame on the socket: flag, handle, command id, body length, body, checksum. */
  function SocketFrame(id: byte, body: seq<byte>, checksum: seq<byte>): seq<byte>
    requires |body| < 0x1_0000
  {
    [HCI_ZIGBEE_FLAG, MHDL, id] + Le16(|body|) + body + checksum
  }

  /** What the server hands to the controller: the frame without its flag, as long as its length field says. */
  function ToController(frame: seq<byte>): seq<byte>
    requires |frame| >= 5 && |frame| >= FromLe16(frame[3..5]) + 7
  {
    frame[1..][..FromLe16(frame[3..5]) + 6]
  }

  /**
   * `aml_15p4_data_cb`: a controller frame goes to the session with the flag put
   * back, unless its body is longer than 249 bytes or nobody is connected.
   */
  method DataCb(mem: seq<byte>, sessionSocket: int) returns (sent: seq<byte>)
    requires |mem| >= 4 && |mem| >= FromLe16(mem[2..4]) + 6
    ensures var len := FromLe16(mem[2..4]);
            sent == if len <= AML_15P4_SOCKET_SIZE - 7 && sessionSocket != -1 then [HCI_ZIGBEE_FLAG] + mem[..len + 6]
                    else []
  {
    var len := mem[3] as int * 0x100 + mem[2] as int;
    if len > AML_15P4_SOCKET_SIZE - 7 {
      return [];
    }
    var buf := new byte[AML_15P4_SOCKET_SIZE](_ => 0);
    buf[0] := HCI_ZIGBEE_FLAG;
    var n := len + 4 + 2;
    var i := 0;
    while i < n
      invariant i <= n && buf[0] == HCI_ZIGBEE_FLAG && buf[1..1 + i] == mem[..i]
    {
      buf[1 + i] := mem[i];
      i := i + 1;
    }
    sent := [];
    if sessionSocket != -1 {
      sent := buf[..n + 1];
      assert sent == [buf[0]] + buf[1..1 + n];
    }
  }

  /** Stripped for the controller and wrapped again, a frame with a body of at most 249 bytes is unchanged. */
  method Loopback(id: byte, body: seq<byte>, checksum: seq<byte>, sessionSocket: int) returns (sent: seq<byte>)
    requires |checksum| == 2 && |body| < 0x1_0000 && sessionSocket != -1
    ensures sent == if |body| <= 249 then [0x10, 0xfa, id] + Le16(|body|) + body + checksum else []
  {
    var frame := SocketFrame(id, body, checksum);
    assert frame[3..5] == Le16(|body|);
    Le16RoundTrip(|body|);
    var mem := ToController(frame);
    assert mem == frame[1..] && mem[2..4] == Le16(|body|);
    sent := DataCb(mem, sessionSocket);
    assert [HCI_ZIGBEE_FLAG] + mem == frame;
  }
}
