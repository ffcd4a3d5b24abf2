/**
 FORWARDING_HANDLER before any websocket upgrade, with the configured m_cMinBufferLimit of 0: the request
 body goes out re-chunked or counted down against its Content-Length, the response comes back through
 buffers that the client's response refers to until it has been flushed.

 A method is the part of the source's function in which continuations are started; the ghost state `s` of
 ForwardingProtocol records them, and what is left of the function afterwards are the small methods at the
 end.  The outcomes of WinHTTP and IIS calls are parameters.
 */
module ForwardingHandlers {
  import opened Bytes
  import opened ChunkedBody
  import opened ForwardingProtocol
  import opened Opening
  import opened ResponseLength
  import opened Words

  const INFINITE: dword := 0xffff_ffff

  datatype Status = Start | SendingRequest | ReceivingResponse | ResetConnection | Done

  /** The HRESULTs the code tells apart. */
  datatype Result = Ok | HandleEof | InvalidServerResponse | OtherError

  /** HTTP_DATA_CHUNK from memory: the response refers to the buffer until it is flushed. */
  datatype Chunk = Chunk(buffer: array<byte>, length: nat)

  /** How OnExecuteRequestHandler gets to its end or to WinHttpSendRequest. */
  datatype Setup =
    | OfflinePage
    | OfflineChild(expected: bool)
    | Fails
    | FailsWithChild(expected: bool)
    | Ready(body: dword, sends: bool)
  {
    /** What carries the request on: a child request that completes later, or the request that was sent. */
    predicate Carries(cs: seq<Continuation>) {
      cs == if (OfflineChild? || FailsWithChild?) && expected then [Iis(ChildRequest)]
            else if Ready? && sends then [WinHttp(Op.SendRequest)] else []
    }

    /** A request that failed is done. */
    function Leaves(): Status {
      if Ready? && sends then SendingRequest else if OfflinePage? || OfflineChild? then Start else Status.Done
    }
  }

  /** The bytes the response still refers to. */
  ghost function Queued(chunks: seq<Chunk>): seq<byte>
    requires forall c | c in chunks :: c.length <= c.buffer.Length
    reads set c | c in chunks :: c.buffer
  {
    if chunks == [] then [] else chunks[0].buffer[..chunks[0].length] + Queued(chunks[1..])
  }

  function Min(a: nat, b: nat): nat { if a < b then a else b }

  /** What follows a write to the backend: more of the body while there may be more, the end of a chunked body once
      it has been reported, and otherwise the response. */
  function AfterWrite(outstanding: dword, read: Result): Continuation {
    if outstanding > 0 && !read.HandleEof? then Iis(EntityRead)
    else if outstanding == INFINITE then WinHttp(WriteData)
    else WinHttp(Op.ReceiveResponse)
  }

  /** What follows a read of the body: it is written to the backend, or else a chunked body is closed, or else the
      response is asked for. */
  function AfterRead(outstanding: dword, completion: Result): Continuation {
    if completion.Ok? || outstanding == INFINITE then WinHttp(WriteData) else WinHttp(Op.ReceiveResponse)
  }

  /** What follows a flush: the rest of what was announced, or the question for more. */
  function AfterFlush(announced: nat): Continuation {
    if announced == 0 then WinHttp(QueryDataAvailable) else WinHttp(ReadData)
  }

  class ForwardingHandler {
    var requestStatus: Status
    var refs: int
    var bytesToReceive: dword
    var bytesToSend: nat
    var contentLength: ulonglong
    var entityBuffer: array?<byte>
    var entityBuffers: seq<array<byte>>
    var chunks: seq<Chunk>

    ghost var s: State
    ghost var current: Continuation           // what carries, or last carried, the request
    ghost var started: seq<Continuation>      // by the activation that is running
    ghost var declared: dword                 // the request body: its declared length or INFINITE, what was
    ghost var pieces: seq<seq<byte>>          //   read of it from the client,
    ghost var written: seq<byte>              //   what was written to the backend,
    ghost var ended: bool                     //   and whether the client has reported its end
    ghost var length: ulonglong               // the response: its declared length, the sizes announced,
    ghost var announced: seq<nat>             //
    ghost var fromBackend: seq<byte>          //   what was read from the backend,
    ghost var toClient: seq<byte>             //   and what was flushed to the client

    /** Counted down against the declared length, or re-chunked and, at the end, closed. */
    ghost predicate RequestSide()
      reads `bytesToReceive, `declared, `pieces, `written, `ended
    {
      if declared != INFINITE then written == Concat(pieces) && |written| + bytesToReceive == declared
      else
        && written == Wire(pieces) + (if bytesToReceive == 0 then LAST_CHUNK else [])
        && bytesToReceive in {0, INFINITE} && (bytesToReceive == 0 ==> ended)
    }

    /** Nothing is queued: all that came from the backend has reached the client. */
    ghost predicate Quiet()
      reads `chunks, `fromBackend, `toClient
    {
      chunks == [] && toClient == fromBackend
    }

    /** What is queued is unfreed, unchanged, and all that has not reached the client. */
    ghost predicate Queueing()
      reads `chunks, `entityBuffers, `fromBackend, `toClient, set c | c in chunks :: c.buffer
    {
      && (forall c | c in chunks :: c.length <= c.buffer.Length && c.buffer in entityBuffers)
      && toClient + Queued(chunks) == fromBackend
    }

    ghost predicate Unanswered()
      reads `chunks, `fromBackend, `toClient, `announced, `bytesToSend
    {
      Quiet() && fromBackend == [] && announced == [] && bytesToSend == 0
    }

    ghost predicate EntityReady()
      reads `entityBuffer
    {
      entityBuffer != null ==> entityBuffer.Length == ENTITY_BUFFER_SIZE
    }

    /** n bytes of the entity buffer. */
    ghost function Entity(offset: nat, n: nat): seq<byte>
      reads `entityBuffer, entityBuffer
    {
      if entityBuffer != null && offset + n <= entityBuffer.Length then entityBuffer[offset..offset + n] else []
    }

    /** The request, or a part of its body, is being sent. */
    ghost predicate Sending()
      reads `requestStatus, `bytesToReceive, `bytesToSend, `entityBuffer, `entityBuffers, `chunks,
            `declared, `pieces, `written, `ended, `announced, `fromBackend, `toClient
    {
      requestStatus == SendingRequest && RequestSide() && Unanswered() && EntityReady()
    }

    /** The client is being asked for more of the body, into the entity buffer. */
    ghost predicate ReadingEntity()
      reads `requestStatus, `bytesToReceive, `bytesToSend, `entityBuffer, `entityBuffers, `chunks,
            `declared, `pieces, `written, `ended, `announced, `fromBackend, `toClient
    {
      && requestStatus == SendingRequest && RequestSide() && Unanswered() && bytesToReceive > 0
      && entityBuffer != null && entityBuffer.Length == ENTITY_BUFFER_SIZE
    }

    /** The response is being waited for. */
    ghost predicate AwaitingResponse()
      reads `requestStatus, `bytesToReceive, `bytesToSend, `entityBuffer, `entityBuffers, `chunks,
            `declared, `pieces, `written, `ended, `announced, `fromBackend, `toClient
    {
      && requestStatus == ReceivingResponse && RequestSide() && bytesToReceive != INFINITE && Unanswered()
      && (bytesToReceive == 0 || ended)
    }

    /** The backend is being asked how much data there is. */
    ghost predicate Querying()
      reads `requestStatus, `bytesToReceive, `bytesToSend, `entityBuffer, `entityBuffers, `chunks,
            `declared, `pieces, `written, `ended, `announced, `fromBackend, `toClient
    {
      requestStatus == ReceivingResponse && Quiet() && bytesToSend == 0
    }

    /** Data is being read, into a buffer nothing refers to. */
    ghost predicate ReadingData()
      reads `requestStatus, `bytesToReceive, `bytesToSend, `entityBuffer, `entityBuffers, `chunks,
            `declared, `pieces, `written, `ended, `announced, `fromBackend, `toClient
    {
      && requestStatus == ReceivingResponse && Quiet() && bytesToSend > 0
      && entityBuffer != null && entityBuffer.Length == Min(bytesToSend, BUFFER_SIZE) && entityBuffer in entityBuffers
    }

    /** What was read is being flushed. */
    ghost predicate Flushing()
      reads `requestStatus, `bytesToReceive, `bytesToSend, `entityBuffer, `entityBuffers, `chunks,
            `declared, `pieces, `written, `ended, `announced, `fromBackend, `toClient, set c | c in chunks :: c.buffer
    {
      requestStatus == ReceivingResponse && Queueing()
    }

    /** The request is over but for the completion, or there is nothing to do but to go on receiving. */
    ghost predicate Settled()
      reads `requestStatus, `bytesToReceive, `bytesToSend, `entityBuffer, `entityBuffers, `chunks,
            `declared, `pieces, `written, `ended, `announced, `fromBackend, `toClient
    {
      requestStatus in {Done, ResetConnection} || (requestStatus == ReceivingResponse && Quiet())
    }

    /** What holds of the handler while c carries the request; closed until Opened is mentioned. */
    ghost predicate Phase(c: Continuation)
      reads `requestStatus, `bytesToReceive, `bytesToSend, `entityBuffer, `entityBuffers, `chunks,
            `declared, `pieces, `written, `ended, `announced, `fromBackend, `toClient, set c | c in chunks :: c.buffer
    {
      forall key: nat {:trigger Opened(key)} :: Opened(key) ==> InPhase(c)
    }

    ghost predicate InPhase(c: Continuation)
      reads `requestStatus, `bytesToReceive, `bytesToSend, `entityBuffer, `entityBuffers, `chunks,
            `declared, `pieces, `written, `ended, `announced, `fromBackend, `toClient, set c | c in chunks :: c.buffer
    {
      match c
      case WinHttp(SendRequest) => Sending()
      case WinHttp(WriteData) => Sending()
      case WinHttp(ReceiveResponse) => AwaitingResponse()
      case WinHttp(QueryDataAvailable) => Querying()
      case WinHttp(ReadData) => ReadingData()
      case Iis(EntityRead) => ReadingEntity()
      case Iis(Flush) => Flushing()
      case Iis(Posted) => Settled()
      case Iis(ChildRequest) => requestStatus in {Start, Done}
      case Iis(FirstEntry) =>
        && requestStatus == Start && bytesToReceive == 0 && pieces == [] && written == []
        && Unanswered() && entityBuffer == null
    }

    /** In every phase: the accounting, and the client has a prefix of what the backend sent. */
    ghost predicate Accounts()
      reads `contentLength, `length, `announced, `bytesToSend, `fromBackend, `toClient
    {
      && toClient <= fromBackend
      && contentLength == Remaining(length, announced)
      && Sum(announced) == |fromBackend| + bytesToSend
    }

    ghost predicate Coupled()
      reads `s, `current, `started, `refs
    {
      Inv(s) && CarriedBy(s, current) && started == [] && refs == s.refs
    }

    ghost predicate Valid()
      reads this, set c | c in chunks :: c.buffer
    {
      Coupled() && Accounts() && (s.finishing + s.finished == 0 ==> Phase(current))
    }

    /** The handler as CProxyModule creates it, entered by OnExecuteRequestHandler. */
    constructor ()
      ensures Valid() && s == Initial() && !ended
    {
      requestStatus, refs, bytesToReceive, bytesToSend, contentLength := Start, 1, 0, 0, 0;
      entityBuffer, entityBuffers, chunks := null, [], [];
      s, current, started := Initial(), Iis(FirstEntry), [];
      declared, pieces, written, ended := 0, [], [], false;
      length, announced, fromBackend, toClient := 0, [], [], [];
      new;
      refs := refs + 1;
      assert InPhase(current);
    }

    // ----- What an activation may use while it runs -----

    /** Around every asynchronous WinHTTP call: a reference for the callback, given back if the call fails. */
    method StartWinHttp(op: Op, succeeds: bool)
      requires started == []
      modifies `refs, `started
      ensures started == if succeeds then [WinHttp(op)] else []
      ensures refs == old(refs) + if succeeds then 1 else 0
    {
      ReferenceForwardingHandler();
      if succeeds {
        started := [WinHttp(op)];
      } else {
        DereferenceForwardingHandler();
      }
    }

    method ReferenceForwardingHandler()
      modifies `refs
      ensures refs == old(refs) + 1
    {
      refs := refs + 1;
    }

    method DereferenceForwardingHandler()
      modifies `refs
      ensures refs == old(refs) - 1
    {
      refs := refs - 1;
    }

    /** GetNewResponseBuffer. */
    method GetNewResponseBuffer(size: nat, haveMemory: bool) returns (buffer: array?<byte>)
      modifies `entityBuffers
      ensures if haveMemory then
        buffer != null && fresh(buffer) && buffer.Length == size && entityBuffers == old(entityBuffers) + [buffer]
        else buffer == null && entityBuffers == old(entityBuffers)
    {
      buffer := null;
      if haveMemory {
        buffer := new byte[size];
        entityBuffers := entityBuffers + [buffer];
      }
    }

    /** FreeResponseBuffers: only while the response refers to none of them. */
    method FreeResponseBuffers()
      requires chunks == []
      modifies `entityBuffers, `entityBuffer
      ensures entityBuffers == [] && entityBuffer == null
    {
      entityBuffers, entityBuffer := [], null;
    }

    // ----- The request body -----

    /** "0\r\n\r\n" goes to the backend. */
    method WriteLastChunk(succeeds: bool)
      requires started == [] && requestStatus == SendingRequest && RequestSide() && bytesToReceive == INFINITE
      requires Unanswered() && EntityReady() && ended
      modifies `refs, `bytesToReceive, `started, `written
      ensures refs == old(refs) + |started| && if succeeds then started == [WinHttp(WriteData)] && Sending()
        else started == []
    {
      bytesToReceive := 0;
      StartWinHttp(WriteData, succeeds);
      if succeeds {
        written := written + LAST_CHUNK;
      }
    }

    /** WinHttpReceiveResponse. */
    method ReceiveResponse(succeeds: bool)
      requires started == [] && RequestSide() && bytesToReceive != INFINITE && Unanswered()
      requires bytesToReceive == 0 || ended
      modifies `refs, `requestStatus, `started
      ensures refs == old(refs) + |started| && if succeeds then
        started == [WinHttp(Op.ReceiveResponse)] && AwaitingResponse() else started == []
    {
      requestStatus := ReceivingResponse;
      StartWinHttp(Op.ReceiveResponse, succeeds);
    }

    /** OnWinHttpCompletionSendRequestOrWriteComplete: asks the client for more of the body while some is
        outstanding and its end has not been reported, then closes a chunked body, and then asks the backend for
        its response. */
    method OnSendRequestOrWriteComplete(
        haveMemory: bool, read: Result, succeeds: bool) returns (hr: Result, another: bool)
      requires started == [] && Sending() && !read.InvalidServerResponse?
      modifies `requestStatus, `refs, `bytesToReceive, `entityBuffer, `entityBuffers, `started, `written, `ended
      ensures refs == old(refs) + |OpsIn(started)|
      ensures if !another then hr.OtherError? && started == []
        else hr.Ok? && if started == [WinHttp(WriteData)] then Sending()
                       else if started == [Iis(EntityRead)] then ReadingEntity()
                       else started == [WinHttp(Op.ReceiveResponse)] && AwaitingResponse()
      ensures another <==> Sent(haveMemory, read, succeeds).StartsNext(old(bytesToReceive), old(entityBuffer) != null)
      ensures another ==> started == [AfterWrite(old(bytesToReceive), read)]
      ensures old(bytesToReceive) > 0 && another && read.Ok? ==> started == [Iis(EntityRead)]
      ensures started == [WinHttp(Op.ReceiveResponse)] ==> old(bytesToReceive) == 0 || read.HandleEof?
      ensures started == [WinHttp(WriteData)] ==> old(bytesToReceive) == INFINITE && read.HandleEof?
      ensures (old(entityBuffer) != null || haveMemory) && (read.Ok? || read.HandleEof?) && succeeds ==> another
      ensures ended == old(ended || (bytesToReceive > 0 && read.HandleEof? && (entityBuffer != null || haveMemory)))
    {
      if bytesToReceive > 0 {
        if entityBuffer == null {
          entityBuffer := GetNewResponseBuffer(ENTITY_BUFFER_SIZE, haveMemory);
          if entityBuffer == null {
            return OtherError, false;
          }
        }
        if read.Ok? {
          started := [Iis(EntityRead)];
          return Ok, true;
        } else if !read.HandleEof? {
          return read, false;
        }
        ended := true;
        if bytesToReceive == INFINITE {
          WriteLastChunk(succeeds);
          return if succeeds then Ok else OtherError, succeeds;
        }
      }
      ReceiveResponse(succeeds);
      return if succeeds then Ok else OtherError, succeeds;
    }

    /** What goes to the backend for cb bytes read: counted down, or re-chunked in place. */
    method FrameEntity(cb: nat) returns (offset: nat, count: nat)
      requires ReadingEntity() && cb <= Min(bytesToReceive, BUFFER_SIZE)
      modifies `bytesToReceive, entityBuffer
      ensures bytesToReceive == old(bytesToReceive) - if declared == INFINITE then 0 else cb
      ensures offset + count <= entityBuffer.Length
      ensures entityBuffer[offset..offset + count] ==
        if declared == INFINITE then Frame(old(Entity(6, cb))) else old(Entity(6, cb))
    {
      if bytesToReceive != INFINITE {
        bytesToReceive := bytesToReceive - cb;
        offset, count := 6, cb;
      } else {
        offset, count := FrameInPlace(entityBuffer, cb);
      }
    }

    /** The part of OnSendingRequest that forwards what was read. */
    method WriteEntity(cb: nat, succeeds: bool)
      requires started == [] && ReadingEntity() && cb <= Min(bytesToReceive, BUFFER_SIZE)
      modifies `refs, `bytesToReceive, `started, `written, `pieces, entityBuffer
      ensures refs == old(refs) + |started| && if succeeds then started == [WinHttp(WriteData)] && Sending()
        else started == []
      ensures succeeds ==> pieces == old(pieces) + [old(Entity(6, cb))]
    {
      hide Wire, Frame, Concat;
      ghost var piece := entityBuffer[6..6 + cb];
      var offset, count := FrameEntity(cb);
      StartWinHttp(WriteData, succeeds);
      if succeeds {
        ConcatAppend(pieces, piece);
        WireAppend(pieces, piece);
        pieces := pieces + [piece];
        written := written + entityBuffer[offset..offset + count];
      }
    }

    /** OnSendingRequest: what was read from the client goes to the backend; at its end, the end of the
        chunked body or the request for the response. */
    method OnSendingRequest(cb: nat, completion: Result, succeeds: bool) returns (hr: Result)
      requires started == [] && ReadingEntity() && (completion.Ok? ==> cb <= Min(bytesToReceive, BUFFER_SIZE))
      modifies `requestStatus, `refs, `bytesToReceive, `started, `written, `pieces, `ended, entityBuffer
      ensures refs == old(refs) + |started|
      ensures if !hr.Ok? then started == []
        else if started == [WinHttp(WriteData)] then Sending()
          else started == [WinHttp(Op.ReceiveResponse)] && AwaitingResponse()
      ensures hr.Ok? <==> (completion.Ok? || completion.HandleEof?) && succeeds
      ensures hr.Ok? ==> started == [AfterRead(old(bytesToReceive), completion)]
      ensures hr.Ok? ==> pieces == old(pieces) + if completion.Ok? then [old(Entity(6, cb))] else []
      ensures ended == (old(ended) || completion.HandleEof?)
    {
      if completion.HandleEof? {
        ended := true;
        if bytesToReceive == INFINITE {
          WriteLastChunk(succeeds);
        } else {
          ReceiveResponse(succeeds);
        }
      } else if completion.Ok? {
        WriteEntity(cb, succeeds);
      } else {
        return completion;
      }
      return if succeeds then Ok else OtherError;
    }

    // ----- The response -----

    /** OnWinHttpCompletionStatusHeadersAvailable, for a response whose headers SetStatusAndHeaders took or
        refused; it never starts anything. */
    method OnHeadersAvailable(parsed: bool, contentLength': ulonglong) returns (hr: Result)
      requires AwaitingResponse() && Accounts()
      modifies `contentLength, `length, `entityBuffer, `entityBuffers
      ensures Accounts() && Quiet() && requestStatus == ReceivingResponse
      ensures (hr.Ok? <==> parsed) && !hr.InvalidServerResponse?
      ensures hr.Ok? ==> length == contentLength' && entityBuffers == []
    {
      if !parsed {
        return OtherError;
      }
      contentLength, length := contentLength', contentLength';
      FreeResponseBuffers();
      return Ok;
    }

    /** OnReceivingResponse: the buffers of what has reached the client are freed, and the next data, or the
        rest of the data announced, is asked for. */
    method OnReceivingResponse(haveMemory: bool, succeeds: bool) returns (hr: Result)
      requires started == [] && requestStatus == ReceivingResponse && Quiet()
      modifies `refs, `started, `entityBuffer, `entityBuffers
      ensures refs == old(refs) + |started|
      ensures if !hr.Ok? then started == []
        else if started == [WinHttp(QueryDataAvailable)] then Querying()
          else started == [WinHttp(ReadData)] && ReadingData()
      ensures hr.Ok? <==> succeeds && (bytesToSend > 0 ==> haveMemory)
      ensures hr.Ok? ==> started == [AfterFlush(bytesToSend)]
      ensures forall b | b in entityBuffers :: fresh(b)
    {
      FreeResponseBuffers();
      if bytesToSend == 0 {
        StartWinHttp(QueryDataAvailable, succeeds);
      } else {
        entityBuffer := GetNewResponseBuffer(Min(bytesToSend, BUFFER_SIZE), haveMemory);
        if entityBuffer == null {
          return OtherError;
        }
        StartWinHttp(ReadData, succeeds);
      }
      hr := if succeeds then Ok else OtherError;
    }

    /** The end of the response: normal if the length accounting has reached 0.  A backend that stayed
        within its positive Content-Length is found to have ended normally if and only if the client has
        received exactly that much. */
    method OnNoMoreData() returns (hr: Result)
      requires Querying() && Accounts()
      modifies `requestStatus
      ensures Accounts() && Quiet()
      ensures hr == if Remaining(length, announced) == 0 then Ok else InvalidServerResponse
      ensures hr.Ok? ==> requestStatus == Done
      ensures 0 < length && |toClient| <= length ==> (hr.Ok? <==> |toClient| == length)
    {
      if |toClient| <= length { RemainingIsDifference(length, announced); }
      if contentLength != 0 {
        return InvalidServerResponse;
      }
      requestStatus := Done;
      return Ok;
    }

    /** OnWinHttpCompletionStatusDataAvailable, for some data: it is read into a new buffer. */
    method OnDataAvailable(n: dword, haveMemory: bool, succeeds: bool) returns (hr: Result, another: bool)
      requires started == [] && n > 0 && Querying() && Accounts()
      modifies `refs, `started, `bytesToSend, `contentLength, `announced, `entityBuffer, `entityBuffers
      ensures Accounts() && Quiet() && announced == old(announced) + [n as nat]
      ensures refs == old(refs) + |started|
      ensures if another then hr.Ok? && started == [WinHttp(ReadData)] && ReadingData()
        else hr.OtherError? && started == []
      ensures another <==> haveMemory && succeeds
    {
      Announce(n);
      entityBuffer := GetNewResponseBuffer(Min(bytesToSend, BUFFER_SIZE), haveMemory);
      if entityBuffer == null {
        return OtherError, false;
      }
      StartWinHttp(ReadData, succeeds);
      return if succeeds then Ok else OtherError, succeeds;
    }

    method Announce(n: dword)
      requires bytesToSend == 0 && Accounts()
      modifies `bytesToSend, `contentLength, `announced
      ensures Accounts() && announced == old(announced) + [n as nat] && bytesToSend == n
    {
      bytesToSend := n;
      if contentLength != 0 {
        contentLength := (contentLength - n) % TWO_64;
      }
      SumAppend(announced, n);
      assert (announced + [n as nat])[..|announced|] == announced;
      announced := announced + [n as nat];
    }

    /** OnWinHttpCompletionStatusReadComplete: the data read is queued by reference and flushed. */
    method OnReadComplete(k: nat, queues: bool, flushes: bool) returns (hr: Result, another: bool)
      requires started == [] && ReadingData() && Accounts() && k <= Min(bytesToSend, BUFFER_SIZE)
      modifies `started, `bytesToSend, `chunks, `fromBackend
      ensures Accounts() && fromBackend == old(fromBackend) + entityBuffer[..k]
      ensures if another then hr.Ok? && started == [Iis(Flush)] && Flushing()
        else started == [] && if hr.Ok? then requestStatus == ReceivingResponse && Quiet() else hr.OtherError?
      ensures another <==> k > 0 && queues && flushes
      ensures hr.Ok? <==> k == 0 || another
    {
      bytesToSend := bytesToSend - k;
      fromBackend := fromBackend + entityBuffer[..k];
      if k == 0 {
        return Ok, false;
      }
      if !queues {
        return OtherError, false;
      }
      chunks := chunks + [Chunk(entityBuffer, k)];
      assert chunks == [Chunk(entityBuffer, k)] && chunks[1..] == [];
      if !flushes {
        return OtherError, false;
      }
      started := [Iis(Flush)];
      return Ok, true;
    }

    /** Whatever state the handler has got into, when the response is being waited for a chunked body has
        reached the backend, whole: the client has reported its end, and the backend decodes exactly what was
        read, unless a read was empty. */
    lemma BackendGetsBody()
      requires Valid() && Op.ReceiveResponse in s.winHttp && declared == INFINITE
      ensures ended && (Decode(written) == Body(Concat(pieces), []) <==> [] !in pieces)
    {
      assert Opened(0) && InPhase(current);
      BodyArrivesIff(pieces);
    }

    /** The continuations a request goes through until its response comes. */
    ghost predicate SendsRequest(c: Continuation) {
      c in {WinHttp(Op.SendRequest), WinHttp(WriteData), WinHttp(Op.ReceiveResponse), Iis(EntityRead)}
    }

    /** Throughout the sending of a counted request the backend has got exactly what was read, and the
        declared length is what it has got plus what is outstanding.  The response is waited for only when
        nothing is outstanding or the client has reported the end. */
    lemma BackendGetsCountedBody(c: Continuation)
      requires Valid() && declared != INFINITE && SendsRequest(c)
      requires (if c.WinHttp? then c.op in s.winHttp else c.work in s.iis)
      ensures written == Concat(pieces) && |written| + bytesToReceive == declared
      ensures c == WinHttp(Op.ReceiveResponse) ==> |written| == declared || ended
    {
      assert Opened(0) && InPhase(current);
    }

    // ----- The three entry points -----

    /** An entry ends: what it started carries the request on, or the request is about to be finished. */
    ghost method EndEntry(finishes: bool)
      requires Inv(s) && |s.entries| == 1 && refs == s.refs + |OpsIn(started)| && |started| <= 1
      requires Accounts() && (started != [] ==> Phase(started[0])) && finishes == (started == [])
      modifies `s, `current, `started
      ensures Valid() && (!finishes ==> [current] == old(started))
      ensures s == Apply(old(s), EntryEnds(0, old(started)))
    {
      hide Inv, CarriedBy, OpsIn;
      EndCarries(s, EntryEnds(0, started));
      assert started != [] ==> started == [started[0]];
      s := Apply(s, EntryEnds(0, started));
      current := ForwardingProtocol.Next(started);
      started := [];
    }

    /** A callback ends: what it started carries the request on, or it must post a completion. */
    ghost method EndCallback(posts: bool)
      requires Inv(s) && |s.callbacks| == 1 && refs == s.refs + |OpsIn(started)| && |started| <= 1
      requires Accounts() && Phase(ForwardingProtocol.Next(started)) && posts == (started == [])
      modifies `s, `current, `started
      ensures Valid() && (!posts ==> [current] == old(started))
      ensures s == Apply(old(s), CallbackEnds(0, old(started)))
    {
      hide Inv, CarriedBy, OpsIn;
      EndCarries(s, CallbackEnds(0, started));
      assert started != [] ==> started == [started[0]];
      s := Apply(s, CallbackEnds(0, started));
      current := ForwardingProtocol.Next(started);
      started := [];
    }

    /** The request is sent to the backend. */
    method SendHeaders(body: dword, sends: bool)
      requires started == [] && InPhase(Iis(FirstEntry))
      modifies `requestStatus, `bytesToReceive, `declared, `refs, `started
      ensures refs == old(refs) + |started|
      ensures if sends then started == [WinHttp(SendRequest)] && Sending() else started == [] && requestStatus == Done
      ensures declared == body
    {
      hide Queued, ForwardingHandler.Quiet;
      requestStatus, bytesToReceive, declared := SendingRequest, body, body;
      assert Wire([]) == [] == Wire([]) + [];
      StartWinHttp(SendRequest, sends);
      if !sends { requestStatus := Done; }
    }

    /** OnExecuteRequestHandler's body. */
    method Execute(setup: Setup) returns (finishes: bool)
      requires started == [] && InPhase(Iis(FirstEntry)) && refs == s.refs
      modifies `requestStatus, `bytesToReceive, `declared, `refs, `started
      ensures finishes == (started == []) && |started| <= 1 && refs == s.refs + |OpsIn(started)|
      ensures started != [] ==> Phase(started[0])
      ensures setup.Carries(started)
      ensures setup.Ready? ==> declared == setup.body
      ensures requestStatus == setup.Leaves()
    {
      finishes := true;
      match setup {
        case OfflinePage =>
        case OfflineChild(expected) =>
          finishes := !expected;
          started := if expected then [Iis(ChildRequest)] else [];
        case Fails =>
          requestStatus := Done;
        case FailsWithChild(expected) =>
          requestStatus := Done;
          finishes := !expected;
          started := if expected then [Iis(ChildRequest)] else [];
        case Ready(body, sends) =>
          SendHeaders(body, sends);
          finishes := !sends;
      }
      hide ForwardingHandler.RequestSide, ForwardingHandler.Unanswered, ForwardingHandler.EntityReady;
      assert started != [] ==> InPhase(started[0]);
    }

    /** OnExecuteRequestHandler; unless it finishes the request it returns RQ_NOTIFICATION_PENDING. */
    method OnExecuteRequestHandler(setup: Setup) returns (finishes: bool)
      requires Valid() && s.entries == [FirstEntry]
      modifies this
      ensures Valid() && s == Apply(old(s), EntryEnds(0, if finishes then [] else [current]))
      ensures setup.Carries(if finishes then [] else [current])
      ensures ended == old(ended) && (setup.Ready? ==> declared == setup.body)
      ensures requestStatus == setup.Leaves()
    {
      RunningAlone(s);
      assert s.entries[0] in s.entries && Opened(0);
      finishes := Execute(setup);
      ghost var handedOn := started;
      EndEntry(finishes);
      assert handedOn == if finishes then [] else [current];
    }

    /** When the flush has completed the client has what was queued. */
    method Flushed()
      requires Queueing()
      modifies `toClient, `chunks
      ensures Quiet()
    {
      toClient := toClient + Queued(chunks);
      chunks := [];
    }

    /** The failure exits: nothing is left queued. */
    method Fail(status: Status)
      modifies `requestStatus, `chunks
      ensures requestStatus == status && chunks == []
    {
      requestStatus, chunks := status, [];
    }

    /** OnAsyncCompletion's body. */
    method Continue(cb: nat, completion: Result, haveMemory: bool, succeeds: bool) returns (finishes: bool)
      requires started == [] && current.Iis? && current.work != FirstEntry && InPhase(current) && refs == s.refs
      requires Accounts()
      requires current == Iis(EntityRead) && completion.Ok? ==> cb <= Min(bytesToReceive, BUFFER_SIZE)
      modifies `requestStatus, `refs, `bytesToReceive, `entityBuffer, `entityBuffers, `chunks, `started, `written
      modifies `pieces, `ended, `toClient, entityBuffer
      ensures finishes == (started == []) && |started| <= 1 && refs == s.refs + |OpsIn(started)| && Accounts()
      ensures started != [] ==> Phase(started[0])
      ensures finishes ==> requestStatus == Done
      ensures old(requestStatus) == ReceivingResponse ==>
        (finishes <==> !(completion.Ok? && succeeds && (bytesToSend > 0 ==> haveMemory)))
      ensures old(requestStatus) == SendingRequest ==>
        (finishes <==> !((completion.Ok? || completion.HandleEof?) && succeeds))
      ensures old(requestStatus) !in {ReceivingResponse, SendingRequest} ==> finishes
      ensures old(requestStatus) == ReceivingResponse && completion.Ok? ==>
        toClient == fromBackend && chunks == [] && forall b | b in entityBuffers :: fresh(b)
      ensures old(requestStatus) == SendingRequest && !finishes ==>
        pieces == old(pieces) + if completion.Ok? then [old(Entity(6, cb))] else []
      ensures ended == (old(ended) || (old(requestStatus) == SendingRequest && completion.HandleEof?))
      ensures !finishes ==>
        started[0] == if old(requestStatus) == ReceivingResponse then AfterFlush(bytesToSend)
          else AfterRead(old(bytesToReceive), completion)
    {
      hide AfterRead, AfterFlush, ForwardingHandler.Unanswered, ForwardingHandler.Querying, ForwardingHandler.Entity;
      hide ForwardingHandler.RequestSide, ForwardingHandler.EntityReady, ForwardingHandler.ReadingData, Wire, Min, Sum;
      var hr := Ok;
      finishes := true;
      match requestStatus {
        case ReceivingResponse =>
          if completion.Ok? {
            Flushed();
            hr := OnReceivingResponse(haveMemory, succeeds);
          } else {
            hr := completion;
          }
          finishes := !hr.Ok?;
        case SendingRequest =>
          hr := OnSendingRequest(cb, completion, succeeds);
          finishes := !hr.Ok?;
        case ResetConnection =>
          hr := InvalidServerResponse;
        case Start =>
          hr := OtherError;
        case Done =>
      }
      if !hr.Ok? {
        Fail(Done);
      }
      assert started != [] ==> InPhase(started[0]);
    }

    /** OnAsyncCompletion; unless it finishes the request it returns RQ_NOTIFICATION_PENDING. */
    method OnAsyncCompletion(cb: nat, completion: Result, haveMemory: bool, succeeds: bool) returns (finishes: bool)
      requires Valid() && |s.entries| == 1 && s.entries[0] != FirstEntry
      requires s.entries[0] == EntityRead && completion.Ok? ==> cb <= Min(bytesToReceive, BUFFER_SIZE)
      modifies this, entityBuffer
      ensures Valid() && s == Apply(old(s), EntryEnds(0, if finishes then [] else [current]))
      ensures finishes ==> requestStatus == Done
      ensures old(requestStatus) == ReceivingResponse ==>
        (finishes <==> !(completion.Ok? && succeeds && (bytesToSend > 0 ==> haveMemory)))
      ensures old(requestStatus) == SendingRequest ==>
        (finishes <==> !((completion.Ok? || completion.HandleEof?) && succeeds))
      ensures old(requestStatus) !in {ReceivingResponse, SendingRequest} ==> finishes
      ensures old(requestStatus) == ReceivingResponse && completion.Ok? ==>
        toClient == fromBackend && chunks == [] && forall b | b in entityBuffers :: fresh(b)
      ensures old(requestStatus) == SendingRequest && !finishes ==>
        pieces == old(pieces) + if completion.Ok? then [old(Entity(6, cb))] else []
      ensures ended == (old(ended) || (old(requestStatus) == SendingRequest && completion.HandleEof?))
      ensures !finishes ==>
        current == if old(requestStatus) == ReceivingResponse then AfterFlush(bytesToSend)
          else AfterRead(old(bytesToReceive), completion)
    {
      RunningAlone(s);
      assert s.entries[0] in s.entries && Opened(0);
      finishes := Continue(cb, completion, haveMemory, succeeds);
      ghost var handedOn := started;
      EndEntry(finishes);
      assert handedOn == if finishes then [] else [current];
    }

    /** OnWinHttpCompletionInternal's switch. */
    method Dispatch(event: Event) returns (hr: Result, another: bool)
      requires started == [] && current.WinHttp? && InPhase(current) && refs == s.refs && Accounts()
      requires event.Completes(current.op, bytesToSend)
      modifies `requestStatus, `refs, `bytesToReceive, `bytesToSend, `contentLength, `entityBuffer, `entityBuffers
      modifies `chunks,
               `started, `written, `ended, `length, `announced, `fromBackend
      ensures refs == s.refs + |OpsIn(started)| && Accounts()
      ensures if another then hr.Ok? && |started| == 1 && Phase(started[0]) else started == [] && (hr.Ok? ==> Settled())
      ensures another <==> event.StartsNext(old(bytesToReceive), old(entityBuffer) != null)
      ensures another ==> started == [event.Next(old(bytesToReceive))]
      ensures event.DataAvailable? && event.n == 0 ==>
        && hr == (if Remaining(length, announced) == 0 then Ok else InvalidServerResponse)
        && (hr.Ok? ==> requestStatus == Done) && toClient == fromBackend
      ensures event.RequestError? ==> hr == event.error
      ensures hr.InvalidServerResponse? ==> event.DataAvailable? || event.RequestError?
      ensures !another && !event.RequestError? && !(event.DataAvailable? && event.n == 0) ==>
        (hr.Ok? <==> event.JustPosts()) && (hr.Ok? ==> requestStatus == ReceivingResponse) && !hr.InvalidServerResponse?
      ensures event.HeadersAvailable? && event.parsed ==> length == event.contentLength
      ensures announced == old(announced) + if event.DataAvailable? && event.n > 0 then [event.n as nat] else []
      ensures fromBackend == old(fromBackend) + if event.DataRead? then old(Entity(0, event.k)) else []
      ensures ended ==> old(ended) || (event.Sent? && event.read.HandleEof?)
    {
      hide Sum, ForwardingHandler.Unanswered, AfterWrite;
      hide ForwardingHandler.RequestSide, ForwardingHandler.EntityReady, Wire, Queued, Min, Remaining;
      hr, another := Ok, false;
      match event {
        case Sent(haveMemory, read, succeeds) =>
          hr, another := OnSendRequestOrWriteComplete(haveMemory, read, succeeds);
        case HeadersAvailable(parsed, contentLength') =>
          hr := OnHeadersAvailable(parsed, contentLength');
        case DataAvailable(n, haveMemory, succeeds) =>
          if n == 0 {
            hr := OnNoMoreData();
          } else {
            hr, another := OnDataAvailable(n, haveMemory, succeeds);
          }
        case DataRead(k, queues, flushes) =>
          hr, another := OnReadComplete(k, queues, flushes);
        case RequestError(error) =>
          hr := error;
      }
      assert another ==> InPhase(started[0]);
    }

    /** The switch and the failure exits. */
    method Settle(event: Event) returns (posts: bool)
      requires started == [] && current.WinHttp? && InPhase(current) && refs == s.refs && Accounts()
      requires event.Completes(current.op, bytesToSend)
      modifies `requestStatus, `refs, `bytesToReceive, `bytesToSend, `contentLength, `entityBuffer, `entityBuffers
      modifies `chunks, `started, `written, `ended, `length, `announced, `fromBackend
      ensures refs == s.refs + |OpsIn(started)| && |started| <= 1 && posts == (started == [])
      ensures Accounts() && Phase(ForwardingProtocol.Next(started))
      ensures posts <==> !event.StartsNext(old(bytesToReceive), old(entityBuffer) != null)
      ensures !posts ==> started == [event.Next(old(bytesToReceive))]
      ensures event.DataAvailable? && event.n == 0 ==>
        && requestStatus == (if Remaining(length, announced) == 0 then Done else ResetConnection)
        && toClient == fromBackend
      ensures event.RequestError? ==>
        requestStatus == if event.error.InvalidServerResponse? then ResetConnection else Done
      ensures posts && !event.RequestError? && !(event.DataAvailable? && event.n == 0) ==>
        requestStatus == if event.JustPosts() then ReceivingResponse else Done
      ensures event.HeadersAvailable? && event.parsed ==> length == event.contentLength
      ensures announced == old(announced) + if event.DataAvailable? && event.n > 0 then [event.n as nat] else []
      ensures fromBackend == old(fromBackend) + if event.DataRead? then old(Entity(0, event.k)) else []
      ensures ended ==> old(ended) || (event.Sent? && event.read.HandleEof?)
    {
      var hr, another := Dispatch(event);
      if !hr.Ok? {
        Fail(if hr.InvalidServerResponse? then ResetConnection else Done);
      }
      posts := !another;
      assert started == [] ==> InPhase(Iis(Posted));
    }

    /** OnWinHttpCompletionInternal for the completion of the operation, up to where the lock is released;
        a callback that started nothing posts a completion. */
    method OnWinHttpCompletion(event: Event) returns (posts: bool)
      requires Valid() && |s.callbacks| == 1 && event.Completes(s.callbacks[0], bytesToSend)
      modifies this
      ensures Valid() && s == Apply(old(s), CallbackEnds(0, if posts then [] else [current]))
      ensures posts <==> !event.StartsNext(old(bytesToReceive), old(entityBuffer) != null)
      ensures !posts ==> current == event.Next(old(bytesToReceive))
      ensures event.DataAvailable? && event.n == 0 ==>
        && requestStatus == (if Remaining(length, announced) == 0 then Done else ResetConnection)
        && toClient == fromBackend
      ensures event.RequestError? ==>
        requestStatus == if event.error.InvalidServerResponse? then ResetConnection else Done
      ensures posts && !event.RequestError? && !(event.DataAvailable? && event.n == 0) ==>
        requestStatus == if event.JustPosts() then ReceivingResponse else Done
      ensures event.HeadersAvailable? && event.parsed ==> length == event.contentLength
      ensures announced == old(announced) + if event.DataAvailable? && event.n > 0 then [event.n as nat] else []
      ensures fromBackend == old(fromBackend) + if event.DataRead? then old(Entity(0, event.k)) else []
      ensures ended ==> old(ended) || (event.Sent? && event.read.HandleEof?)
    {
      RunningAlone(s);
      assert s.callbacks[0] in s.callbacks && Opened(0);
      posts := Settle(event);
      ghost var handedOn := started;
      EndCallback(posts);
      assert handedOn == if posts then [] else [current];
    }

    // ----- The ends of the functions, and what comes from outside -----

    /** Any step that is not the end of an activation's body: m_cRefs changes as the step says. */
    ghost method StepAside(a: Action)
      requires Inv(s) && CarriedBy(s, current) && started == [] && Enabled(s, a) && !a.CallbackEnds? && !a.EntryEnds?
      requires refs == Apply(s, a).refs && Accounts() && (s.finishing + s.finished == 0 ==> Phase(current))
      modifies `s
      ensures Valid() && s == Apply(old(s), a)
    {
      AsideCarries(s, a, current);
      s := Apply(s, a);
    }

    /** A callback that handed the request on, or an entry that returns RQ_NOTIFICATION_PENDING, gives up its
        reference and is gone. */
    method Leave()
      requires Valid() && s.leaving > 0
      modifies `refs, `s
      ensures Valid() && s == Apply(old(s), Leaves)
    {
      DereferenceForwardingHandler();
      StepAside(Leaves);
    }

    /** A callback that started nothing gives up its reference, and only then posts the completion. */
    method Post()
      requires Valid() && s.mustPost > 0
      modifies `refs, `s
      ensures Valid() && s == Apply(Apply(old(s), DropsReference), PostsCompletion)
      ensures refs >= 1
    {
      DereferenceForwardingHandler();
      StepAside(DropsReference);
      StepAside(PostsCompletion);
    }

    /** An entry that finishes the request gives up its reference and returns. */
    method ReturnFinished()
      requires Valid() && s.finishing > 0
      modifies `refs, `s
      ensures Valid() && s == Apply(old(s), ReturnsFinished)
    {
      DereferenceForwardingHandler();
      StepAside(ReturnsFinished);
    }

    /** CProxyModule's destructor. */
    method ModuleRelease()
      requires Valid() && s.moduleHolds && s.finished > 0
      modifies `refs, `s
      ensures Valid() && s == Apply(old(s), ModuleReleases)
    {
      DereferenceForwardingHandler();
      StepAside(ModuleReleases);
    }

    /** IIS enters for the completion it owed: OnAsyncCompletion takes a reference. */
    method EnterAsyncCompletion()
      requires Valid() && s.iis != []
      modifies `refs, `s
      ensures Valid() && s == Apply(old(s), EntryBegins(0))
    {
      ReferenceForwardingHandler();
      StepAside(EntryBegins(0));
    }

    /** WinHTTP calls back for the operation it owed; the operation's reference is now the callback's. */
    ghost method EnterCallback()
      requires Valid() && s.winHttp != []
      modifies `s
      ensures Valid() && s == Apply(old(s), CallbackBegins(0))
    {
      StepAside(CallbackBegins(0));
    }

    /** IIS writes a piece of the request body into the entity buffer: nothing else refers to it. */
    method EntityArrives(data: seq<byte>)
      requires Valid() && s.iis == [EntityRead] && |data| <= Min(bytesToReceive, BUFFER_SIZE)
      modifies entityBuffer
      ensures Valid() && entityBuffer != null && 6 + |data| <= entityBuffer.Length
      ensures entityBuffer[6..6 + |data|] == data
    {
      assert s.iis[0] in s.iis && Opened(0) && InPhase(current);
      forall i | 0 <= i < |data| {
        entityBuffer[6 + i] := data[i];
      }
      assert InPhase(current);
    }

    /** WinHTTP writes a piece of the response into the entity buffer: what is queued, nothing, is not
        overwritten. */
    method DataArrives(data: seq<byte>)
      requires Valid() && s.winHttp == [ReadData] && |data| <= Min(bytesToSend, BUFFER_SIZE)
      modifies entityBuffer
      ensures Valid() && chunks == [] && entityBuffer != null && |data| <= entityBuffer.Length
      ensures entityBuffer[..|data|] == data
    {
      assert s.winHttp[0] in s.winHttp && Opened(0) && InPhase(current);
      forall i | 0 <= i < |data| {
        entityBuffer[i] := data[i];
      }
      assert InPhase(current);
    }

    /** Until a flush completes, what the response refers to is unfreed and is what the backend sent and the
        client has not received yet. */
    lemma FlushSeesBackendBytes()
      requires Valid() && Flush in s.iis
      ensures (forall c | c in chunks :: c.length <= c.buffer.Length && c.buffer in entityBuffers)
      ensures toClient + Queued(chunks) == fromBackend
    {
      assert Opened(0) && InPhase(current);
    }

    /** Whatever happens, what the client has received is a prefix of what the backend has sent. */
    lemma ClientSeesPrefix()
      requires Valid()
      ensures toClient <= fromBackend && Sum(announced) == |fromBackend| + bytesToSend
    {
    }
  }

  /** The WinHTTP notifications that complete an operation, with how the calls made on them turn out. */
  datatype Event =
    | Sent(haveMemory: bool, read: Result, succeeds: bool)
    | HeadersAvailable(parsed: bool, contentLength: ulonglong)
    | DataAvailable(n: dword, haveMemory: bool, succeeds: bool)
    | DataRead(k: nat, queues: bool, flushes: bool)
    | RequestError(error: Result)
  {
    /** Each operation ends in its own notification or in an error; a read stays within what was asked. */
    predicate Completes(op: Op, bytesToSend: nat) {
      match this
      case Sent(_, read, _) => op in {Op.SendRequest, WriteData} && !read.InvalidServerResponse?
      case HeadersAvailable(_, _) => op == ReceiveResponse
      case DataAvailable(_, _, _) => op == QueryDataAvailable
      case DataRead(k, _, _) => op == ReadData && k <= Min(bytesToSend, BUFFER_SIZE)
      case RequestError(error) => !error.Ok?
    }

    /** The callback can start the next operation: there is a buffer for it, and the call that starts it succeeds. */
    predicate StartsNext(outstanding: dword, hasBuffer: bool) {
      match this
      case Sent(haveMemory, read, succeeds) =>
        && (outstanding > 0 ==> hasBuffer || haveMemory)
        && if outstanding > 0 && !read.HandleEof? then read.Ok? else succeeds
      case HeadersAvailable(_, _) => false
      case DataAvailable(n, haveMemory, succeeds) => n > 0 && haveMemory && succeeds
      case DataRead(k, queues, flushes) => k > 0 && queues && flushes
      case RequestError(_) => false
    }

    /** The operation that is next. */
    function Next(outstanding: dword): Continuation {
      match this
      case Sent(_, read, _) => AfterWrite(outstanding, read)
      case DataRead(_, _, _) => Iis(Flush)
      case _ => WinHttp(ReadData)
    }

    /** The callback has nothing to start, and the request goes on receiving. */
    predicate JustPosts() { (HeadersAvailable? && parsed) || (DataRead? && k == 0) }
  }
}
