/**
  The `AsyncClient` protocol of ouroboros/network/asyncclient.py: the four
  `asyncio.Protocol` callbacks, the receive buffer they maintain and the
  owner hooks they call.

  An owner overrides the hooks; what an overriding hook does is modelled only
  by whether it returns or raises (`HookOutcome`). A hook that raises makes the
  callback fail after the exception is reported. The steps the owner can
  observe are recorded, in order, in the ghost `events` trace.
*/
module Client {
  import opened Wrappers
  import opened FileIO

  /** A connection handed over by the event loop; `closeCount` counts calls to `close()`. */
  class Transport {
    var closeCount: nat

    constructor ()
      ensures closeCount == 0
    {
      closeCount := 0;
    }

    method Close()
      modifies this
      ensures closeCount == old(closeCount) + 1
    {
      closeCount := closeCount + 1;
    }
  }

  datatype Hook = ConnectionMadeHook | DataReceivedHook | ConnectionLostHook

  /** What the owner's hook does when it is called. */
  datatype HookOutcome = Returns | Raises

  /** Whether a callback returns normally or fails. */
  datatype CallbackResult = Completed | Failed

  /** An observable step: a hook called with the state it sees, or a transport closed. */
  datatype Event =
    | HookCalled(hook: Hook, transport: Transport?, buffered: seq<bv8>, position: nat)
    | TransportClosed(closed: Transport)

  function ResultOf(hook: HookOutcome): CallbackResult
  {
    if hook == Raises then Failed else Completed
  }

  class AsyncClient {
    var transport: Transport?
    var recvBuffer: FileStream
    ghost var events: seq<Event>

    ghost predicate Valid()
      reads this, recvBuffer
    {
      recvBuffer.Valid()
    }

    /** A new client: no transport and an empty receive buffer with the given byte order. */
    constructor (endian: Endian)
      ensures Valid() && fresh(recvBuffer)
      ensures transport == null
      ensures recvBuffer.data == [] && recvBuffer.position == 0 && recvBuffer.endian == endian
      ensures events == []
    {
      transport := null;
      recvBuffer := new FileStream([], endian);
      events := [];
    }

    /** `connection_made`: the transport is assigned first, then the hook runs; it stays assigned if the hook raises. */
    method ConnectionMade(t: Transport, hook: HookOutcome) returns (r: CallbackResult)
      requires Valid()
      modifies this`transport, this`events
      ensures Valid()
      ensures transport == t
      ensures events == old(events) + [HookCalled(ConnectionMadeHook, t, recvBuffer.data, recvBuffer.position)]
      ensures r == ResultOf(hook)
    {
      transport := t;
      events := events + [HookCalled(ConnectionMadeHook, transport, recvBuffer.data, recvBuffer.position)];
      if hook == Raises {
        r := Failed;
      } else {
        r := Completed;
      }
    }

    /**
      `data_received`: the chunk is appended to the whole buffer, the cursor
      rewound to 0, and only then the hook runs; the buffer keeps everything
      received so far. The transport is not touched.
    */
    method DataReceived(chunk: seq<bv8>, hook: HookOutcome) returns (r: CallbackResult)
      requires Valid()
      modifies recvBuffer, this`events
      ensures Valid()
      ensures transport == old(transport)
      ensures recvBuffer.data == old(recvBuffer.data) + chunk
      ensures recvBuffer.position == 0
      ensures recvBuffer.endian == old(recvBuffer.endian)
      ensures events == old(events) + [HookCalled(DataReceivedHook, transport, recvBuffer.data, 0)]
      ensures r == ResultOf(hook)
    {
      recvBuffer.SetPosition(EndOfFile);
      recvBuffer.Write(chunk);
      recvBuffer.SetPosition(At(0));
      events := events + [HookCalled(DataReceivedHook, transport, recvBuffer.data, recvBuffer.position)];
      if hook == Raises {
        r := Failed;
      } else {
        r := Completed;
      }
    }

    /**
      `eof_received`: does nothing and returns `None`, which asks the event
      loop to close the transport itself.
    */
    method EofReceived() returns (keepOpen: bool)
      ensures !keepOpen
    {
      keepOpen := false;
    }

    /**
      `connection_lost`: the hook runs first, with the transport still
      assigned. If it raises, the callback fails and the transport stays
      assigned and unclosed. Otherwise the transport is closed once and then
      cleared; with no transport assigned, `close()` on `None` fails.
    */
    method ConnectionLost(error: Option<string>, hook: HookOutcome) returns (r: CallbackResult)
      requires Valid()
      modifies this`transport, this`events, transport
      ensures Valid()
      ensures |events| > |old(events)|
      ensures events[..|old(events)| + 1] == old(events) + [HookCalled(ConnectionLostHook, old(transport), recvBuffer.data, recvBuffer.position)]
      ensures hook == Raises ==>
        && r == Failed
        && transport == old(transport)
        && (transport != null ==> transport.closeCount == old(transport.closeCount))
        && |events| == |old(events)| + 1
      ensures hook == Returns && old(transport) != null ==>
        && r == Completed
        && transport == null
        && old(transport).closeCount == old(transport.closeCount) + 1
        && events == old(events) + [HookCalled(ConnectionLostHook, old(transport), recvBuffer.data, recvBuffer.position), TransportClosed(old(transport))]
      ensures hook == Returns && old(transport) == null ==>
        && r == Failed
        && transport == null
        && |events| == |old(events)| + 1
    {
      events := events + [HookCalled(ConnectionLostHook, transport, recvBuffer.data, recvBuffer.position)];
      if hook == Raises {
        r := Failed;
        return;
      }
      if transport == null {
        r := Failed;
        return;
      }
      transport.Close();
      events := events + [TransportClosed(transport)];
      transport := null;
      r := Completed;
    }

    /** The default `connectionMade` hook: returns and changes nothing. */
    method ConnectionMadeDefault(t: Transport) returns (outcome: HookOutcome)
      ensures outcome == Returns
    {
      outcome := Returns;
    }

    /** The default `dataReceived` hook: returns and changes nothing. */
    method DataReceivedDefault() returns (outcome: HookOutcome)
      ensures outcome == Returns
    {
      outcome := Returns;
    }

    /** The default `connectionLost` hook: returns and changes nothing. */
    method ConnectionLostDefault(error: Option<string>) returns (outcome: HookOutcome)
      ensures outcome == Returns
    {
      outcome := Returns;
    }
  }
}
