/**
  The connection registry behind the push channel. Sockets are identifiers;
  what the network does (the state a socket reports, a send that fails, the
  frames a peer sends) is given to each operation as input, and what the
  registry does to the network (frames sent, close handshakes) is returned
  or logged. Every operation is one atomic, sequential step.
 */
module WebSockets {
  import opened Wrappers
  import Utf8
  import Collections

  type SocketId = nat

  /** The states a .NET WebSocket reports; only Open sockets are broadcast to. */
  datatype WebSocketState = NoneYet | Connecting | Open | CloseSent | CloseReceived | Closed | Aborted

  /** What one awaited receive delivers: a close status marks the peer's close frame. */
  datatype ReceiveResult = ReceiveResult(closeStatus: Option<nat>, closeStatusDescription: Option<string>)

  /** One awaited receive: a result, or an exception thrown by the receive itself. */
  datatype Receive = Received(result: ReceiveResult) | ReceiveFailed

  datatype MessageType = Text | Binary | Close

  /** One send: the socket, the bytes, the frame type and the end-of-message flag. */
  datatype Frame = Frame(socket: SocketId, payload: seq<Utf8.Byte>, messageType: MessageType, endOfMessage: bool)

  /** A close handshake the registry performed, with the status and description it echoed. */
  datatype CloseHandshake = CloseHandshake(socket: SocketId, status: nat, description: Option<string>)

  /** How a connection's receive loop stands after the receives it has seen. */
  datatype SessionEnd =
    | ClosedByPeer(status: nat, description: Option<string>)
    | Faulted
    | StillReceiving

  /** A send that threw, naming the socket. */
  datatype SendFailure = SendFailure(socket: SocketId)

  predicate IsDataFrame(r: Receive) {
    r.Received? && r.result.closeStatus.None?
  }

  /**
    Where a receive loop that is handed `receives` one by one ends: at the
    first close status, at the first receive that throws, or still waiting.
   */
  function SessionResult(receives: seq<Receive>): (r: SessionEnd)
    ensures r.StillReceiving? ==> forall j :: 0 <= j < |receives| ==> IsDataFrame(receives[j])
  {
    if receives == [] then StillReceiving
    else match receives[0]
      case ReceiveFailed => Faulted
      case Received(r) =>
        if r.closeStatus.Some? then ClosedByPeer(r.closeStatus.value, r.closeStatusDescription)
        else SessionResult(receives[1..])
  }

  /**
    The loop keeps waiting exactly while every receive is a data frame; it
    ends with index `k`'s close status or failure exactly when `k` is the
    first receive that is not a data frame.
   */
  lemma {:induction false} SessionResultCases(receives: seq<Receive>, k: nat)
    requires k <= |receives|
    requires forall j :: 0 <= j < k ==> IsDataFrame(receives[j])
    ensures k == |receives| ==> SessionResult(receives) == StillReceiving
    ensures k < |receives| && receives[k].ReceiveFailed? ==> SessionResult(receives) == Faulted
    ensures k < |receives| && receives[k].Received? && receives[k].result.closeStatus.Some? ==>
      SessionResult(receives) == ClosedByPeer(receives[k].result.closeStatus.value,
                                              receives[k].result.closeStatusDescription)
  {
    if k > 0 {
      assert IsDataFrame(receives[0]);
      SessionResultCases(receives[1..], k - 1);
    }
  }

  /** The registered sockets that report Open, in registry order. */
  function OpenSockets(sockets: seq<SocketId>, state: SocketId -> WebSocketState): (r: seq<SocketId>)
    ensures |r| <= |sockets|
  {
    if sockets == [] then []
    else (if state(sockets[0]) == Open then [sockets[0]] else []) + OpenSockets(sockets[1..], state)
  }

  /** A socket is among the open sockets exactly when it is registered and reports Open. */
  lemma {:induction false} OpenSocketsMembers(sockets: seq<SocketId>, state: SocketId -> WebSocketState, s: SocketId)
    ensures s in OpenSockets(sockets, state) <==> s in sockets && state(s) == Open
  {
    if sockets != [] {
      OpenSocketsMembers(sockets[1..], state, s);
      assert sockets == [sockets[0]] + sockets[1..];
    }
  }

  /** Filtering works piecewise, so the open sockets keep the registry's order. */
  lemma {:induction false} OpenSocketsAppend(a: seq<SocketId>, b: seq<SocketId>, state: SocketId -> WebSocketState)
    ensures OpenSockets(a + b, state) == OpenSockets(a, state) + OpenSockets(b, state)
  {
    if a != [] {
      assert (a + b)[1..] == a[1..] + b;
      OpenSocketsAppend(a[1..], b, state);
    } else {
      assert a + b == b;
    }
  }

  /** The open sockets of a registry prefix come first among the open sockets of the whole registry. */
  lemma OpenSocketsPrefix(sockets: seq<SocketId>, i: nat, state: SocketId -> WebSocketState)
    requires i <= |sockets|
    ensures OpenSockets(sockets[..i], state) <= OpenSockets(sockets, state)
  {
    assert sockets == sockets[..i] + sockets[i..];
    OpenSocketsAppend(sockets[..i], sockets[i..], state);
  }

  /** One more registered socket adds itself to the open sockets exactly when it is open. */
  lemma OpenSocketsStep(sockets: seq<SocketId>, i: nat, state: SocketId -> WebSocketState)
    requires i < |sockets|
    ensures OpenSockets(sockets[..i + 1], state)
      == OpenSockets(sockets[..i], state) + (if state(sockets[i]) == Open then [sockets[i]] else [])
  {
    assert sockets[..i + 1] == sockets[..i] + [sockets[i]];
    OpenSocketsAppend(sockets[..i], [sockets[i]], state);
  }

  class WebSocketHandler {
    /** The registry: every accepted connection not yet deregistered, in acceptance order. */
    var sockets: seq<SocketId>
    /** The close handshakes performed, in order. */
    var closes: seq<CloseHandshake>
    /** The connections whose receive loop is waiting for its next receive. */
    ghost var receiving: multiset<SocketId>

    constructor ()
      ensures sockets == [] && closes == [] && receiving == multiset{}
    {
      sockets := [];
      closes := [];
      receiving := multiset{};
    }

    /** The start of a connection's handling: register it, then wait for its first receive. */
    method Accept(ws: SocketId)
      modifies this
      ensures sockets == old(sockets) + [ws]
      ensures closes == old(closes)
      ensures receiving == old(receiving) + multiset{ws}
    {
      sockets := sockets + [ws];
      receiving := receiving + multiset{ws};
    }

    /**
      The continuation after one awaited receive of `ws`: a close status
      deregisters the connection and closes it with that status; a receive
      that throws ends the loop with the connection still registered; any
      other result leaves everything as it is and waits again.
     */
    method OnReceive(ws: SocketId, received: Receive) returns (end: SessionEnd)
      requires ws in receiving
      modifies this
      ensures end == SessionResult([received])
      ensures end.ClosedByPeer? ==>
        && sockets == Collections.RemoveFirst(old(sockets), ws)
        && closes == old(closes) + [CloseHandshake(ws, end.status, end.description)]
      ensures !end.ClosedByPeer? ==> sockets == old(sockets) && closes == old(closes)
      ensures receiving == if end.StillReceiving? then old(receiving) else old(receiving) - multiset{ws}
    {
      match received
      case ReceiveFailed =>
        end := Faulted;
        receiving := receiving - multiset{ws};
      case Received(result) =>
        if result.closeStatus.Some? {
          end := ClosedByPeer(result.closeStatus.value, result.closeStatusDescription);
          sockets := Collections.RemoveFirst(sockets, ws);
          closes := closes + [CloseHandshake(ws, result.closeStatus.value, result.closeStatusDescription)];
          receiving := receiving - multiset{ws};
        } else {
          end := StillReceiving;
        }
    }

    /**
      A whole connection, handed the receives its peer delivers: register,
      loop while no close status arrives, then deregister and close.
     */
    method HandleWebSocket(ws: SocketId, receives: seq<Receive>) returns (end: SessionEnd)
      modifies this
      ensures end == SessionResult(receives)
      ensures end.ClosedByPeer? ==>
        && sockets == Collections.RemoveFirst(old(sockets) + [ws], ws)
        && closes == old(closes) + [CloseHandshake(ws, end.status, end.description)]
      ensures !end.ClosedByPeer? ==> sockets == old(sockets) + [ws] && closes == old(closes)
      ensures receiving == if end.StillReceiving? then old(receiving) + multiset{ws} else old(receiving)
    {
      Accept(ws);
      end := StillReceiving;
      var i := 0;
      while i < |receives| && end.StillReceiving?
        invariant 0 <= i <= |receives|
        invariant end.StillReceiving? ==>
          && SessionResult(receives) == SessionResult(receives[i..])
          && sockets == old(sockets) + [ws] && closes == old(closes)
          && receiving == old(receiving) + multiset{ws}
        invariant !end.StillReceiving? ==> end == SessionResult(receives)
        invariant end.ClosedByPeer? ==>
          && sockets == Collections.RemoveFirst(old(sockets) + [ws], ws)
          && closes == old(closes) + [CloseHandshake(ws, end.status, end.description)]
          && receiving == old(receiving)
        invariant end.Faulted? ==>
          sockets == old(sockets) + [ws] && closes == old(closes) && receiving == old(receiving)
      {
        assert receives[i..][1..] == receives[i + 1..];
        end := OnReceive(ws, receives[i]);
        i := i + 1;
      }
    }

    /**
      The broadcast: the UTF-8 bytes of `message` are computed once and sent
      as one final text frame to each registered socket whose state is Open,
      in registry order. A send that throws (a socket in `failing`) ends the
      loop and is returned to the caller; later sockets get nothing.
     */
    method NotifyClients(message: string, state: SocketId -> WebSocketState, failing: set<SocketId>)
      returns (sent: seq<Frame>, r: Outcome<SendFailure>)
      ensures |sent| <= |OpenSockets(sockets, state)|
      ensures forall k :: 0 <= k < |sent| ==>
        sent[k] == Frame(OpenSockets(sockets, state)[k], Utf8.Encode(message), Text, true)
        && OpenSockets(sockets, state)[k] !in failing
      ensures r.Pass? <==> |sent| == |OpenSockets(sockets, state)|
      ensures r.Fail? ==>
        && OpenSockets(sockets, state)[|sent|] in failing
        && r.error == SendFailure(OpenSockets(sockets, state)[|sent|])
    {
      var buffer := Utf8.Encode(message);
      ghost var open := OpenSockets(sockets, state);
      sent, r := [], Pass;
      var i := 0;
      while i < |sockets|
        invariant 0 <= i <= |sockets|
        invariant OpenSockets(sockets[..i], state) <= open
        invariant |sent| == |OpenSockets(sockets[..i], state)|
        invariant forall k :: 0 <= k < |sent| ==> sent[k] == Frame(open[k], buffer, Text, true) && open[k] !in failing
      {
        var socket := sockets[i];
        OpenSocketsStep(sockets, i, state);
        OpenSocketsPrefix(sockets, i + 1, state);
        if state(socket) == Open {
          assert open[|sent|] == socket;
          if socket in failing {
            r := Fail(SendFailure(socket));
            return;
          }
          sent := sent + [Frame(socket, buffer, Text, true)];
        }
        i := i + 1;
      }
      assert sockets[..i] == sockets;
    }
  }
}
