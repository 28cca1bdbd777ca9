/**
 * The session machine of the library server (tftpd.go): a table of clients
 * keyed by the client's address (its transfer ID, section 4 of RFC 1350),
 * and the handlers one datagram goes through.
 *
 * The value functions (`Prepare`, `AfterRequest`, `AfterResponse`,
 * `AfterError`, `Serve`) say what one datagram does to the table; the
 * classes `Client` and `Server` do it in place and are proved against them.
 */
module Session {
  import opened Base
  import opened Packets
  import opened Files

  /** A client's transport address, as `addr.String()`. */
  type Addr = string

  /** The fields of a `client` apart from its address. */
  datatype ClientState = ClientState(
    file: FileRef,
    inited: bool,
    lastPkt: bool,
    blockSize: nat,
    bytesLeft: int)

  /** `newClient(addr)`: every field at its zero value. */
  const Fresh := ClientState(NoFile, false, false, 0, 0)

  /** A client after a handler, and the error the handler returned (`None` = nil). */
  datatype Step = Step(client: ClientState, err: Option<Error>)

  /** `prepareFromRequest`: on success the file is installed and the client is inited. */
  function Prepare(c: ClientState, req: Request, fs: Oracle): (s: Step)
    ensures s.err.None? ==> s.client.inited && s.client.blockSize == DefaultBlockSize
    ensures s.err.None? ==> s.client.file.Open? && (s.client.file.handle.Reader? <==> req.opcode == OpRrq)
    ensures s.err.None? && req.opcode == OpRrq ==> s.client.bytesLeft == |fs.content|
    ensures s.err.None? && req.opcode != OpRrq ==> s.client.bytesLeft == 0 && s.client.file.handle.written == []
    ensures s.err.Some? <==> OpenFor(req, fs).Err?
    ensures s.err.Some? ==> s.client == c && s.err == Some(OpenFor(req, fs).error)
  {
    match OpenFor(req, fs)
    case Err(e) => Step(c, Some(e))
    case Ok(o) => Step(c.(file := o.file, bytesLeft := o.size, blockSize := DefaultBlockSize, inited := true), None)
  }

  /** `handleRequest`, without its delete from the table (done when the error is `EndOfSession`). */
  function AfterRequest(c: ClientState, req: Request, fs: Oracle): (s: Step)
    ensures req.opcode < OpRrq || req.opcode > OpError ==>
              s == Step(c, Some(Tftp(NewTFTPError(IllegalOperation, []))))
    ensures s.err == Some(EndOfSession) <==> OpRrq <= req.opcode <= OpError && req.opcode == OpAck && c.inited && c.lastPkt
    ensures !c.inited && req.opcode !in {OpRrq, OpWrq} ==> s.err.Some? && s.client == c
    ensures s.err.None? ==> s.client.inited
    ensures s.client.lastPkt == c.lastPkt
    ensures c.inited ==> s.client == c.(file := s.client.file)
  {
    if req.opcode < OpRrq || req.opcode > OpError then
      Step(c, Some(Tftp(NewTFTPError(IllegalOperation, []))))
    else if req.opcode == OpAck && c.inited && c.lastPkt then
      Step(c, Some(EndOfSession))
    else if !c.inited && req.opcode != OpRrq && req.opcode != OpWrq then
      Step(c, Some(Tftp(NewTFTPError(UnknownTransferId, []))))
    else
      var p := if !c.inited then Prepare(c, req, fs) else Step(c, None);
      if p.err.Some? || req.opcode != OpData then p
      else match CopyIn(p.client.file, req.body, fs.write)
        case Err(e) => Step(p.client, Some(e))
        case Ok(f) => Step(p.client.(file := f), None)
  }

  /** A client after `handleResponse`, the response as it will be sent, and the error. */
  datatype Answer = Answer(client: ClientState, resp: Response, err: Option<Error>)

  /**
   * `handleResponse`: for a DATA response, read into its buffer, close the
   * file and set `lastPkt` when `bytesLeft` was already used up, cut the
   * buffer to the bytes read and count them off `bytesLeft`.
   */
  function AfterResponse(c: ClientState, resp: Response, fs: Oracle): (a: Answer)
    ensures resp.opcode != OpData ==> a == Answer(c, resp, None)
    ensures a.err.Some? <==> resp.opcode == OpData && (!c.file.Open? || fs.read.Failed?)
    ensures a.err.Some? ==>
              a == Answer(c, resp, Some(Unexpected(if c.file.Open? then OsError(fs.read.err) else BadHandle)))
    ensures a.err.None? ==> a.resp.opcode == resp.opcode && a.resp.number == resp.number
    ensures a.err.None? && resp.opcode == OpData ==>
              |a.resp.body| <= |resp.body| && a.client.bytesLeft == c.bytesLeft - |a.resp.body|
    ensures a.err.None? && resp.opcode == OpData ==> (a.client.lastPkt <==> c.lastPkt || c.bytesLeft <= 0)
  {
    if resp.opcode != OpData then Answer(c, resp, None)
    else match Read(c.file, |resp.body|, fs.read)
      case ReadFailed(fault) => Answer(c, resp, Some(Unexpected(fault)))
      case Got(chunk, f) =>
        var last := c.bytesLeft <= 0;
        Answer(
          c.(file := if last then Closed else f,
             lastPkt := c.lastPkt || last,
             bytesLeft := c.bytesLeft - |chunk|),
          resp.(body := chunk),
          None)
  }

  /** `handleError`'s change to the client: the next ACK from it ends the session. */
  function AfterError(c: ClientState): (r: ClientState)
    ensures r.inited && r.lastPkt
    ensures r.(inited := c.inited, lastPkt := c.lastPkt) == c
  {
    c.(inited := true, lastPkt := true)
  }

  /** The `*tftpError` that `handleError` sends for an error. */
  function Reported(e: Error): TftpError
  {
    match e
    case Tftp(te) => te
    case _ => NewTFTPError(NotDefined, [Bytes("Unexpected error.")])
  }

  /** A client after the body of `handleConnection`, its error, and the packet it sent. */
  datatype Handled = Handled(client: ClientState, err: Option<Error>, sent: Option<seq<byte>>)

  /**
   * The function literal in `handleConnection`: decode, `handleRequest`,
   * `newResponse`, `handleResponse`, and on success the encoded response.
   */
  function Exchange(c: ClientState, numRead: nat, body: seq<byte>, fs: Oracle): (h: Handled)
    requires 4 <= |body| && numRead <= |body|
    ensures h.err.None? <==> h.sent.Some?
    ensures h.err == Some(EndOfSession) ==> c.inited && c.lastPkt && body[1] == OpAck
    ensures h.sent.Some? ==> 4 <= |h.sent.value| && h.sent.value[1] in {OpUnknown, OpData, OpAck}
  {
    match NewRequest(numRead, body)
    case Err(e) => Handled(c, Some(e), None)
    case Ok(req) =>
      var s := AfterRequest(c, req, fs);
      if s.err.Some? then Handled(s.client, s.err, None)
      else
        var a := AfterResponse(s.client, NewResponse(s.client.blockSize, req), fs);
        if a.err.Some? then Handled(a.client, a.err, None)
        else Handled(a.client, None, Some(EncodeResponse(a.resp)))
  }

  /** The table after a datagram, and the packet sent back (`None`: nothing sent). */
  datatype Served = Served(table: map<Addr, ClientState>, sent: Option<seq<byte>>)

  /** The client of `addr`: its entry, or `newClient` when it has none. */
  function Current(t: map<Addr, ClientState>, addr: Addr): ClientState
  {
    if addr in t then t[addr] else Fresh
  }

  /**
   * The end of `handleConnection`: the entry of `addr` holds the client as
   * the handlers left it, is deleted at the end of a session, and goes
   * through `handleError` on any other error.
   */
  function Settle(t: map<Addr, ClientState>, addr: Addr, h: Handled): Served
  {
    if h.err == Some(EndOfSession) then Served(t - {addr}, None)
    else if h.err.Some? then Served(t[addr := AfterError(h.client)], Some(ErrorPacket(Reported(h.err.value))))
    else Served(t[addr := h.client], h.sent)
  }

  /**
   * `handleConnection`: one datagram from `addr`, `numRead` bytes of the
   * receive buffer `body`, with the file system answering as `fs` says.
   */
  function Serve(t: map<Addr, ClientState>, addr: Addr, numRead: nat, body: seq<byte>, fs: Oracle): (r: Served)
    requires 4 <= |body| && numRead <= |body|
    ensures r.table - {addr} == t - {addr}
    ensures addr !in r.table <==> r.sent.None?
  {
    var h := Exchange(Current(t, addr), numRead, body, fs);
    SettleTouchesOnlyItsAddress(t, addr, h);
    Settle(t, addr, h)
  }

  /**
   * Every datagram touches the entry of its own address alone; that entry is
   * created if missing (even when the datagram fails), and removed only by an
   * ACK to an inited client whose last packet has gone, which is not answered.
   */
  lemma ServeTouchesOnlyItsAddress(t: map<Addr, ClientState>, addr: Addr, numRead: nat, body: seq<byte>, fs: Oracle)
    requires 4 <= |body| && numRead <= |body|
    ensures Serve(t, addr, numRead, body, fs).table - {addr} == t - {addr}
    ensures addr !in Serve(t, addr, numRead, body, fs).table <==> Serve(t, addr, numRead, body, fs).sent.None?
    ensures Serve(t, addr, numRead, body, fs).sent.None? ==>
              addr in t && t[addr].inited && t[addr].lastPkt && body[1] == OpAck
  {
    var h := Exchange(Current(t, addr), numRead, body, fs);
    SettleTouchesOnlyItsAddress(t, addr, h);
  }

  /** A datagram that decodes to the same meaning is handled the same. */
  lemma ExchangeSameMeaning(c: ClientState, numRead: nat, body: seq<byte>, body': seq<byte>, fs: Oracle)
    requires 4 <= |body| && numRead <= |body| && 4 <= |body'| && numRead <= |body'|
    requires Meaning(ParseRequest(numRead, body)) == Meaning(ParseRequest(numRead, body'))
    ensures Exchange(c, numRead, body, fs) == Exchange(c, numRead, body', fs)
  {
    var p, p' := ParseRequest(numRead, body), ParseRequest(numRead, body');
    if p.Parsed? && p.req.opcode != OpData {
      assert p'.req == p.req.(body := p'.req.body);
      SameRequestHandled(c, numRead, body, body', fs, p.req, p'.req);
    } else {
      assert NewRequest(numRead, body) == NewRequest(numRead, body');
    }
  }

  /** Two requests that differ in their unread payload alone are handled the same. */
  lemma SameRequestHandled(c: ClientState, numRead: nat, body: seq<byte>, body': seq<byte>, fs: Oracle,
                           req: Request, req': Request)
    requires 4 <= |body| && numRead <= |body| && 4 <= |body'| && numRead <= |body'|
    requires NewRequest(numRead, body) == Ok(req) && NewRequest(numRead, body') == Ok(req')
    requires req.opcode != OpData && req' == req.(body := req'.body)
    ensures Exchange(c, numRead, body, fs) == Exchange(c, numRead, body', fs)
  {
    AfterRequestIgnoresBody(c, req, fs, req'.body);
  }

  /** `handleRequest` reads the payload of a DATA request alone. */
  lemma AfterRequestIgnoresBody(c: ClientState, req: Request, fs: Oracle, body: seq<byte>)
    requires req.opcode != OpData
    ensures AfterRequest(c, req.(body := body), fs) == AfterRequest(c, req, fs)
  {
    assert OpenFor(req.(body := body), fs) == OpenFor(req, fs);
  }

  /**
   * A datagram that carries its whole request is served as if it had a
   * buffer of its own, whatever earlier datagrams left after it.
   */
  lemma ServeReceived(t: map<Addr, ClientState>, addr: Addr, buf: seq<byte>, d: seq<byte>, fs: Oracle)
    requires |buf| == BodyMaxSize && Whole(d)
    ensures Received(d) == |d|
    ensures Serve(t, addr, |d|, Receive(buf, d), fs) == Serve(t, addr, |d|, d, fs)
  {
    ReceiveFits(buf, d);
    assert StaleIgnored(d, buf[|d|..]);
    ExchangeSameMeaning(Current(t, addr), |d|, Receive(buf, d), d, fs);
  }

  /**
   * A datagram as it comes off the network, the address it came from, and
   * what the file system answers while it is handled: the answers may differ
   * from one datagram to the next, as the server's own creates and writes,
   * or anyone else's, change the files.
   */
  datatype Arrival = Arrival(from: Addr, datagram: seq<byte>, fs: Oracle)

  /** The table after some datagrams, and the answer to each. */
  datatype Trace = Trace(table: map<Addr, ClientState>, sent: seq<Option<seq<byte>>>)

  /**
   * `ListenAndServe` over the datagrams that arrive: each is read into the
   * one buffer `buf`, over the bytes of the ones before, and served with
   * `numRead` set to the bytes read.
   */
  function Listen(t: map<Addr, ClientState>, buf: seq<byte>, arrivals: seq<Arrival>): (r: Trace)
    requires |buf| == BodyMaxSize
    ensures |r.sent| == |arrivals|
    decreases |arrivals|
  {
    if arrivals == [] then Trace(t, [])
    else
      var b := Receive(buf, arrivals[0].datagram);
      var s := Serve(t, arrivals[0].from, Received(arrivals[0].datagram), b, arrivals[0].fs);
      var rest := Listen(s.table, b, arrivals[1..]);
      Trace(rest.table, [s.sent] + rest.sent)
  }

  /** Settling overwrites or deletes the entry of `addr`, so what it held before does not matter. */
  lemma SettleOverwrites(t: map<Addr, ClientState>, addr: Addr, c: ClientState, h: Handled)
    ensures Settle(t[addr := c], addr, h) == Settle(t, addr, h)
  {
    if h.err == Some(EndOfSession) {
      assert t[addr := c] - {addr} == t - {addr};
    } else if h.err.Some? {
      assert t[addr := c][addr := AfterError(h.client)] == t[addr := AfterError(h.client)];
    } else {
      assert t[addr := c][addr := h.client] == t[addr := h.client];
    }
  }

  lemma SettleTouchesOnlyItsAddress(t: map<Addr, ClientState>, addr: Addr, h: Handled)
    requires h.err.None? <==> h.sent.Some?
    ensures Settle(t, addr, h).table - {addr} == t - {addr}
    ensures addr !in Settle(t, addr, h).table <==> Settle(t, addr, h).sent.None?
    ensures Settle(t, addr, h).sent.None? ==> h.err == Some(EndOfSession)
  {
    var r := Settle(t, addr, h);
    if r.sent.Some? {
      assert t[addr := r.table[addr]] - {addr} == t - {addr};
    }
  }

  /** A `client`: its address never changes, the rest is updated by the handlers. */
  class Client {
    const tid: Addr
    var file: FileRef
    var inited: bool
    var lastPkt: bool
    var blockSize: nat
    var bytesLeft: int

    function State(): ClientState
      reads this
    {
      ClientState(file, inited, lastPkt, blockSize, bytesLeft)
    }

    /** `newClient`. */
    constructor (tid: Addr)
      ensures this.tid == tid && State() == Fresh
    {
      this.tid := tid;
      file, inited, lastPkt, blockSize, bytesLeft := NoFile, false, false, 0, 0;
    }

    /** `prepareFromRequest`. */
    method PrepareFromRequest(req: Request, fs: Oracle) returns (err: Option<Error>)
      modifies this
      ensures State() == Prepare(old(State()), req, fs).client
      ensures err == Prepare(old(State()), req, fs).err
    {
      var outcome := OpenFor(req, fs);
      if outcome.Err? {
        return Some(outcome.error);
      }
      file := outcome.value.file;
      bytesLeft := outcome.value.size;
      blockSize := DefaultBlockSize;
      inited := true;
      return None;
    }
  }

  /** The `TFTPServer`'s table of clients. */
  class Server {
    var connections: map<Addr, Client>

    /** Each entry is the client of its own key, so distinct keys hold distinct clients. */
    ghost predicate Valid()
      reads this
    {
      forall a :: a in connections ==> connections[a].tid == a
    }

    ghost function Table(): map<Addr, ClientState>
      reads this, connections.Values
    {
      map a | a in connections :: connections[a].State()
    }

    constructor ()
      ensures Valid() && connections == map[]
    {
      connections := map[];
    }

    /** `handleRequest`: the ACK that ends a session deletes the client's entry. */
    method HandleRequest(cli: Client, req: Request, fs: Oracle) returns (err: Option<Error>)
      requires Valid()
      modifies this, cli
      ensures Valid()
      ensures cli.State() == AfterRequest(old(cli.State()), req, fs).client
      ensures err == AfterRequest(old(cli.State()), req, fs).err
      ensures connections == if err == Some(EndOfSession) then old(connections) - {cli.tid} else old(connections)
    {
      if req.opcode < OpRrq || req.opcode > OpError {
        return Some(Tftp(NewTFTPError(IllegalOperation, [])));
      }
      if req.opcode == OpAck && cli.inited && cli.lastPkt {
        connections := connections - {cli.tid};
        return Some(EndOfSession);
      }
      if !cli.inited && req.opcode != OpRrq && req.opcode != OpWrq {
        return Some(Tftp(NewTFTPError(UnknownTransferId, [])));
      }
      if !cli.inited {
        err := cli.PrepareFromRequest(req, fs);
        if err.Some? {
          return;
        }
      }
      if req.opcode == OpError {
        return None;
      }
      if req.opcode == OpData {
        var copied := CopyIn(cli.file, req.body, fs.write);
        if copied.Err? {
          return Some(copied.error);
        }
        cli.file := copied.value;
      }
      return None;
    }

    /** `handleResponse`: returns the response with its body cut to the bytes read. */
    method HandleResponse(cli: Client, resp: Response, fs: Oracle) returns (err: Option<Error>, sent: Response)
      modifies cli
      ensures AfterResponse(old(cli.State()), resp, fs) == Answer(cli.State(), sent, err)
    {
      sent := resp;
      if resp.opcode == OpData {
        var read := Read(cli.file, |resp.body|, fs.read);
        if read.ReadFailed? {
          return Some(Unexpected(read.fault)), resp;
        }
        if cli.bytesLeft <= 0 {
          cli.file := Closed;
          cli.lastPkt := true;
        } else {
          cli.file := read.file;
        }
        sent := resp.(body := read.chunk);
        cli.bytesLeft := cli.bytesLeft - |read.chunk|;
      }
      return None, sent;
    }

    /** `handleError` with `sendError`: returns the ERROR packet sent. */
    method HandleError(cli: Client, err: Error) returns (packet: seq<byte>)
      modifies cli
      ensures cli.State() == AfterError(old(cli.State()))
      ensures packet == ErrorPacket(Reported(err))
    {
      cli.inited := true;
      cli.lastPkt := true;
      packet := ErrorPacket(Reported(err));
    }

    /** When only the client of `cli.tid` changed, the table changed at that key alone. */
    twostate lemma TableAfterClientChange(cli: Client)
      requires old(Valid()) && connections == old(connections)
      requires cli.tid in connections && connections[cli.tid] == cli
      requires unchanged(connections.Values - {cli})
      ensures Table() == old(Table())[cli.tid := cli.State()]
    {
      forall a | a in connections && a != cli.tid
        ensures connections[a] in connections.Values - {cli}
      {
      }
    }

    /** Deleting a key leaves the other clients' states as they were. */
    twostate lemma TableAfterDelete(addr: Addr)
      requires old(Valid()) && connections == old(connections) - {addr}
      requires unchanged(connections.Values)
      ensures Table() == old(Table()) - {addr}
    {
    }

    /** The function literal of `handleConnection`. */
    method Process(cli: Client, numRead: nat, body: seq<byte>, fs: Oracle) returns (err: Option<Error>, sent: Option<seq<byte>>)
      requires Valid() && 4 <= |body| && numRead <= |body|
      modifies this, cli
      ensures Valid()
      ensures Exchange(old(cli.State()), numRead, body, fs) == Handled(cli.State(), err, sent)
      ensures connections == if err == Some(EndOfSession) then old(connections) - {cli.tid} else old(connections)
    {
      var req := NewRequest(numRead, body);
      if req.Err? {
        return Some(req.error), None;
      }
      err := HandleRequest(cli, req.value, fs);
      if err.Some? {
        return err, None;
      }
      var resp := NewResponse(cli.blockSize, req.value);
      var out;
      err, out := HandleResponse(cli, resp, fs);
      if err.Some? {
        return err, None;
      }
      return None, Some(EncodeResponse(out));
    }

    /** The start of `handleConnection`: the client of `addr`, inserted when it is new. */
    method ClientFor(addr: Addr) returns (cli: Client)
      requires Valid()
      modifies this
      ensures Valid() && cli.tid == addr
      ensures addr in connections && connections[addr] == cli
      ensures connections.Values <= old(connections.Values) + {cli}
      ensures fresh(cli) || cli in old(connections.Values)
      ensures cli.State() == Current(old(Table()), addr)
      ensures Table() == old(Table())[addr := Current(old(Table()), addr)]
    {
      ghost var t := Table();
      if addr in connections {
        cli := connections[addr];
        assert Table() == t[addr := Current(t, addr)];
      } else {
        cli := new Client(addr);
        connections := connections[cli.tid := cli];
        assert Table() == t[addr := Fresh] by {
          forall a | a in connections && a != addr
            ensures connections[a].State() == t[a]
          {
          }
        }
      }
    }

    /** `handleError` on a client of the table: only that client's entry changes. */
    method Reject(cli: Client, err: Error) returns (packet: seq<byte>)
      requires Valid() && cli.tid in connections && connections[cli.tid] == cli
      modifies cli
      ensures Table() == old(Table())[cli.tid := AfterError(old(cli.State()))]
      ensures packet == ErrorPacket(Reported(err))
    {
      label Before:
      packet := HandleError(cli, err);
      TableAfterClientChange@Before(cli);
    }

    /** The body of `handleConnection` once the client of `cli.tid` is in the table. */
    method Dispatch(cli: Client, numRead: nat, body: seq<byte>, fs: Oracle) returns (sent: Option<seq<byte>>)
      requires Valid() && 4 <= |body| && numRead <= |body|
      requires cli.tid in connections && connections[cli.tid] == cli
      modifies this, connections.Values
      ensures Valid() && connections.Values <= old(connections.Values)
      ensures Table() == Settle(old(Table()), cli.tid, Exchange(old(cli.State()), numRead, body, fs)).table
      ensures sent == Settle(old(Table()), cli.tid, Exchange(old(cli.State()), numRead, body, fs)).sent
    {
      ghost var t := Table();
      ghost var h := Exchange(cli.State(), numRead, body, fs);
      assert t == t[cli.tid := cli.State()];
      label Start:
      var err;
      err, sent := Process(cli, numRead, body, fs);
      if err == Some(EndOfSession) {
        TableAfterDelete@Start(cli.tid);
        return;
      }
      TableAfterClientChange@Start(cli);
      if err.Some? {
        var packet := Reject(cli, err.value);
        sent := Some(packet);
      }
    }

    /** `handleConnection`. */
    method HandleConnection(addr: Addr, numRead: nat, body: seq<byte>, fs: Oracle) returns (sent: Option<seq<byte>>)
      requires Valid() && 4 <= |body| && numRead <= |body|
      modifies this, connections.Values
      ensures Valid()
      ensures forall c :: c in connections.Values ==> c in old(connections.Values) || fresh(c)
      ensures Table() == Serve(old(Table()), addr, numRead, body, fs).table
      ensures sent == Serve(old(Table()), addr, numRead, body, fs).sent
    {
      ghost var t := Table();
      var cli := ClientFor(addr);
      ghost var c := cli.State();
      sent := Dispatch(cli, numRead, body, fs);
      SettleOverwrites(t, addr, c, Exchange(c, numRead, body, fs));
    }

    /** `ReadFrom` into the buffer: the datagram's bytes over its head, at most the buffer's length. */
    method ReadFrom(body: array<byte>, d: seq<byte>) returns (numRead: nat)
      requires body.Length == BodyMaxSize
      modifies body
      ensures numRead == Received(d) && body[..] == Receive(old(body[..]), d)
      ensures Table() == old(Table())
    {
      numRead := Received(d);
      forall k | 0 <= k < numRead {
        body[k] := d[k];
      }
      assert body[..] == Receive(old(body[..]), d) by {
        var b := Receive(old(body[..]), d);
        forall k | 0 <= k < BodyMaxSize
          ensures body[k] == b[k]
        {
          if k < numRead {
            assert b[..numRead][k] == d[..numRead][k];
          } else {
            assert b[numRead..][k - numRead] == old(body[..])[numRead..][k - numRead];
          }
        }
      }
    }

    /** One turn of `ListenAndServe`'s loop: read the next datagram into the buffer and serve it. */
    method ServeNext(body: array<byte>, arrivals: seq<Arrival>) returns (answer: Option<seq<byte>>)
      requires Valid() && body.Length == BodyMaxSize && arrivals != []
      modifies this, connections.Values, body
      ensures Valid()
      ensures forall c :: c in connections.Values ==> c in old(connections.Values) || fresh(c)
      ensures Listen(old(Table()), old(body[..]), arrivals)
              == Trace(Listen(Table(), body[..], arrivals[1..]).table,
                       [answer] + Listen(Table(), body[..], arrivals[1..]).sent)
    {
      ghost var t := Table();
      ghost var before := body[..];
      var numRead := ReadFrom(body, arrivals[0].datagram);
      ghost var s := Serve(t, arrivals[0].from, numRead, body[..], arrivals[0].fs);
      answer := HandleConnection(arrivals[0].from, numRead, body[..], arrivals[0].fs);
      ListenStep(t, before, arrivals, body[..], s);
    }

    /**
     * `ListenAndServe` over the datagrams that arrive, in order: one buffer,
     * allocated zeroed before the loop, receives every datagram over what
     * the earlier ones left in it.
     */
    method ListenAndServe(arrivals: seq<Arrival>) returns (sent: seq<Option<seq<byte>>>)
      requires Valid()
      modifies this, connections.Values
      ensures Valid()
      ensures Listen(old(Table()), Zeros(BodyMaxSize), arrivals) == Trace(Table(), sent)
    {
      var body := new byte[BodyMaxSize](_ => 0);
      assert body[..] == Zeros(BodyMaxSize);
      sent := [];
      var i := 0;
      while i < |arrivals|
        invariant 0 <= i <= |arrivals| && Valid()
        invariant fresh(body) && body.Length == BodyMaxSize
        invariant forall c :: c in connections.Values ==> c in old(connections.Values) || fresh(c)
        invariant Listen(old(Table()), Zeros(BodyMaxSize), arrivals)
                  == Trace(Listen(Table(), body[..], arrivals[i..]).table,
                           sent + Listen(Table(), body[..], arrivals[i..]).sent)
      {
        ghost var rest := Listen(Table(), body[..], arrivals[i..]);
        var answer := ServeNext(body, arrivals[i..]);
        assert arrivals[i..][1..] == arrivals[i + 1..];
        TraceRegrouped(Listen(old(Table()), Zeros(BodyMaxSize), arrivals), sent, rest, answer,
                       Listen(Table(), body[..], arrivals[i + 1..]));
        sent := sent + [answer];
        i := i + 1;
      }
    }
  }

  /** The first datagram of a loop, served as `s` says, and the loop over the rest. */
  lemma ListenStep(t: map<Addr, ClientState>, buf: seq<byte>, arrivals: seq<Arrival>, b: seq<byte>, s: Served)
    requires |buf| == BodyMaxSize && arrivals != [] && b == Receive(buf, arrivals[0].datagram)
    requires s == Serve(t, arrivals[0].from, Received(arrivals[0].datagram), b, arrivals[0].fs)
    ensures Listen(t, buf, arrivals)
            == Trace(Listen(s.table, b, arrivals[1..]).table, [s.sent] + Listen(s.table, b, arrivals[1..]).sent)
  {
  }

  /** The answers so far, the next one, and the loop over the rest. */
  lemma TraceRegrouped(whole: Trace, sent: seq<Option<seq<byte>>>, rest: Trace, answer: Option<seq<byte>>, after: Trace)
    requires whole == Trace(rest.table, sent + rest.sent)
    requires rest == Trace(after.table, [answer] + after.sent)
    ensures whole == Trace(after.table, (sent + [answer]) + after.sent)
  {
  }
}
