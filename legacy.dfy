/**
 * The older standalone server (main.go). Its decoder, response builder,
 * error constructor, header layout and C-string codec are those of the
 * library and are not repeated here, except the mode error, which main.go
 * builds differently. Its session lifecycle differs: a client enters the
 * table only once its file is open, it carries no `inited`/`lastPkt`, and its
 * entry is deleted when the last DATA block is built.
 */
module Legacy {
  import opened Base
  import opened Packets
  import opened Files
  import S = Session

  /** The format string main.go passes to `newTFTPError` as if it were the message. */
  const ModeTemplate: seq<byte> := Bytes(ModePrefix + "%v" + ModeSuffix)

  /**
   * `newRequest` of main.go: the library's decoding steps, except that the
   * mode error joins the unformatted template and the mode with a space.
   */
  function Decode(numRead: nat, body: seq<byte>): (r: Result<Request>)
    requires 4 <= |body| && numRead <= |body|
    ensures r.Ok? <==> ParseRequest(numRead, body).Parsed?
    ensures r.Ok? ==> r.value == ParseRequest(numRead, body).req
    ensures ParseRequest(numRead, body).BadMode? ==>
              r == Err(Tftp(TftpError(NotDefined, ModeTemplate + [32] + ParseRequest(numRead, body).mode)))
  {
    var p := ParseRequest(numRead, body);
    match p
    case Parsed(req) => Ok(req)
    case NoTerminator => Err(Unexpected(MalformedCString))
    case BadMode(m) =>
      var e := NewTFTPError(NotDefined, [ModeTemplate, m]);
      assert e.message == ModeTemplate + [32] + m by {
        assert [ModeTemplate, m][1..] == [m];
      }
      Err(Tftp(e))
    case SliceOutOfRange => Err(Unexpected(ShortDatagram))
  }

  /**
   * The two servers never send the same mode error: where the library puts
   * the mode in place of `%v`, main.go keeps `%v` and appends a space and
   * the mode, so its message is three bytes longer.
   */
  lemma ModeMessagesDiffer(mode: seq<byte>)
    ensures ModeMessage(mode) == Bytes(ModePrefix) + mode + Bytes(ModeSuffix)
    ensures ModeTemplate + [32] + mode == Bytes(ModePrefix) + Bytes("%v") + Bytes(ModeSuffix) + [32] + mode
    ensures |ModeTemplate + [32] + mode| == |ModeMessage(mode)| + 3
  {
    BytesAppend(ModePrefix, "%v");
    BytesAppend(ModePrefix + "%v", ModeSuffix);
  }

  /** The fields of main.go's `client` apart from its address. */
  datatype ClientState = ClientState(file: FileRef, blockSize: nat, bytesLeft: int)

  /** `newClient(addr)`. */
  const Fresh := ClientState(NoFile, 0, 0)

  /** A client after a handler, and the error the handler returned. */
  datatype Step = Step(client: ClientState, err: Option<Error>)

  /** `prepareFromRequest` of main.go: the library's file work, without `inited`. */
  function Prepare(c: ClientState, req: Request, fs: Oracle): (s: Step)
    ensures s.err.None? ==> s.client.blockSize == DefaultBlockSize && s.client.file.Open?
    ensures s.err.None? ==> (s.client.file.handle.Reader? <==> req.opcode == OpRrq)
    ensures s.err.None? ==> s.client.bytesLeft == if req.opcode == OpRrq then |fs.content| else 0
    ensures s.err.Some? <==> OpenFor(req, fs).Err?
    ensures s.err.Some? ==> s.client == c && s.err == Some(OpenFor(req, fs).error)
  {
    match OpenFor(req, fs)
    case Err(e) => Step(c, Some(e))
    case Ok(o) => Step(c.(file := o.file, bytesLeft := o.size, blockSize := DefaultBlockSize), None)
  }

  /** A client after `handleRequest`, its error, and whether it was put in the table. */
  datatype Admission = Admission(client: ClientState, err: Option<Error>, inserted: bool)

  /**
   * `handleRequest` of main.go for a client whose address is (`known`) or is
   * not in the table: only a successful `prepareFromRequest` inserts it.
   */
  function AfterRequest(c: ClientState, known: bool, req: Request, fs: Oracle): (a: Admission)
    ensures a.inserted <==> !known && req.opcode in {OpRrq, OpWrq} && Prepare(c, req, fs).err.None?
  {
    if req.opcode < OpRrq || req.opcode > OpError then
      Admission(c, Some(Tftp(NewTFTPError(IllegalOperation, []))), false)
    else if !known && req.opcode != OpRrq && req.opcode != OpWrq then
      Admission(c, Some(Tftp(NewTFTPError(UnknownTransferId, []))), false)
    else if req.opcode == OpError then
      Admission(c, None, false)
    else
      var p := if !known then Prepare(c, req, fs) else Step(c, None);
      if p.err.Some? then Admission(p.client, p.err, false)
      else if req.opcode != OpData then Admission(p.client, None, !known)
      else match CopyIn(p.client.file, req.body, fs.write)
        case Err(e) => Admission(p.client, Some(e), !known)
        case Ok(f) => Admission(p.client.(file := f), None, !known)
  }

  /** A client after `handleResponse`, the response to send, the error, and whether the entry was deleted. */
  datatype Answer = Answer(client: ClientState, resp: Response, err: Option<Error>, removed: bool)

  /**
   * `handleResponse` of main.go: as the library's, except that when
   * `bytesLeft` was used up the entry is deleted rather than marked.
   */
  function AfterResponse(c: ClientState, resp: Response, fs: Oracle): (a: Answer)
    ensures resp.opcode != OpData ==> a == Answer(c, resp, None, false)
    ensures a.err.Some? <==> resp.opcode == OpData && (!c.file.Open? || fs.read.Failed?)
    ensures a.err.Some? ==>
              a == Answer(c, resp, Some(Unexpected(if c.file.Open? then OsError(fs.read.err) else BadHandle)), false)
    ensures a.err.None? && resp.opcode == OpData ==>
              a.resp.opcode == OpData && a.resp.number == resp.number && |a.resp.body| <= |resp.body| &&
              a.client.bytesLeft == c.bytesLeft - |a.resp.body| && (a.removed <==> c.bytesLeft <= 0)
  {
    if resp.opcode != OpData then Answer(c, resp, None, false)
    else match Read(c.file, |resp.body|, fs.read)
      case ReadFailed(fault) => Answer(c, resp, Some(Unexpected(fault)), false)
      case Got(chunk, f) =>
        var last := c.bytesLeft <= 0;
        Answer(c.(file := if last then Closed else f, bytesLeft := c.bytesLeft - |chunk|),
               resp.(body := chunk), None, last)
  }

  /** A client after the body of `handleConnection`, whether it is in the table, its error, and what was sent. */
  datatype Handled = Handled(client: ClientState, present: bool, err: Option<Error>, sent: Option<seq<byte>>)

  /** The function literal in main.go's `handleConnection`. */
  function Exchange(c: ClientState, known: bool, numRead: nat, body: seq<byte>, fs: Oracle): (h: Handled)
    requires 4 <= |body| && numRead <= |body|
    ensures h.err.None? <==> h.sent.Some?
    ensures h.present && !known ==> body[1] in {OpRrq, OpWrq}
    ensures h.err.Some? ==>
              (h.client == c && h.present == known) || (!known && h.present && body[1] == OpRrq && h.client.file.Open?)
    ensures h.sent.Some? ==> 4 <= |h.sent.value| && h.sent.value[1] in {OpUnknown, OpData, OpAck}
  {
    match Decode(numRead, body)
    case Err(e) => Handled(c, known, Some(e), None)
    case Ok(req) =>
      var s := AfterRequest(c, known, req, fs);
      var present := known || s.inserted;
      if s.err.Some? then Handled(s.client, present, s.err, None)
      else
        var a := AfterResponse(s.client, NewResponse(s.client.blockSize, req), fs);
        if a.err.Some? then Handled(a.client, present, a.err, None)
        else Handled(a.client, present && !a.removed, None, Some(EncodeResponse(a.resp)))
  }

  /** The table after a datagram, and the packet sent back. */
  datatype Served = Served(table: map<S.Addr, ClientState>, sent: Option<seq<byte>>)

  function Current(t: map<S.Addr, ClientState>, addr: S.Addr): ClientState
  {
    if addr in t then t[addr] else Fresh
  }

  /**
   * The end of main.go's `handleConnection`: the entry holds the client if
   * it is in the table, and any error is sent as an ERROR packet without
   * touching the client.
   */
  function Settle(t: map<S.Addr, ClientState>, addr: S.Addr, h: Handled): Served
  {
    Served(if h.present then t[addr := h.client] else t - {addr},
           if h.err.Some? then Some(ErrorPacket(S.Reported(h.err.value))) else h.sent)
  }

  /** main.go's `handleConnection` on one datagram from `addr`. */
  function Serve(t: map<S.Addr, ClientState>, addr: S.Addr, numRead: nat, body: seq<byte>, fs: Oracle): (r: Served)
    requires 4 <= |body| && numRead <= |body|
    ensures r.sent.Some?
  {
    Settle(t, addr, Exchange(Current(t, addr), addr in t, numRead, body, fs))
  }

  /** A datagram that decodes to the same meaning is handled the same. */
  lemma ExchangeSameMeaning(c: ClientState, known: bool, numRead: nat, body: seq<byte>, body': seq<byte>, fs: Oracle)
    requires 4 <= |body| && numRead <= |body| && 4 <= |body'| && numRead <= |body'|
    requires Meaning(ParseRequest(numRead, body)) == Meaning(ParseRequest(numRead, body'))
    ensures Exchange(c, known, numRead, body, fs) == Exchange(c, known, numRead, body', fs)
  {
    var p, p' := ParseRequest(numRead, body), ParseRequest(numRead, body');
    if p.Parsed? && p.req.opcode != OpData {
      assert p'.req == p.req.(body := p'.req.body);
      SameRequestHandled(c, known, numRead, body, body', fs, p.req, p'.req);
    } else {
      assert NewRequest(numRead, body) == NewRequest(numRead, body');
    }
  }

  /** Two requests that differ in their unread payload alone are handled the same. */
  lemma SameRequestHandled(c: ClientState, known: bool, numRead: nat, body: seq<byte>, body': seq<byte>, fs: Oracle,
                           req: Request, req': Request)
    requires 4 <= |body| && numRead <= |body| && 4 <= |body'| && numRead <= |body'|
    requires NewRequest(numRead, body) == Ok(req) && NewRequest(numRead, body') == Ok(req')
    requires req.opcode != OpData && req' == req.(body := req'.body)
    ensures Exchange(c, known, numRead, body, fs) == Exchange(c, known, numRead, body', fs)
  {
    AfterRequestIgnoresBody(c, known, req, fs, req'.body);
  }

  /** main.go's `handleRequest` reads the payload of a DATA request alone. */
  lemma AfterRequestIgnoresBody(c: ClientState, known: bool, req: Request, fs: Oracle, body: seq<byte>)
    requires req.opcode != OpData
    ensures AfterRequest(c, known, req.(body := body), fs) == AfterRequest(c, known, req, fs)
  {
    assert OpenFor(req.(body := body), fs) == OpenFor(req, fs);
  }

  /**
   * A datagram that carries its whole request is served as if it had a
   * buffer of its own, whatever earlier datagrams left after it.
   */
  lemma ServeReceived(t: map<S.Addr, ClientState>, addr: S.Addr, buf: seq<byte>, d: seq<byte>, fs: Oracle)
    requires |buf| == BodyMaxSize && Whole(d)
    ensures Received(d) == |d|
    ensures Serve(t, addr, |d|, Receive(buf, d), fs) == Serve(t, addr, |d|, d, fs)
  {
    ReceiveFits(buf, d);
    assert StaleIgnored(d, buf[|d|..]);
    ExchangeSameMeaning(Current(t, addr), addr in t, |d|, Receive(buf, d), d, fs);
  }

  /** The table after some datagrams, and the answer to each. */
  datatype Trace = Trace(table: map<S.Addr, ClientState>, sent: seq<Option<seq<byte>>>)

  /**
   * main.go's `listenAndServe` over the datagrams that arrive: each is read
   * into the one buffer `buf`, over the bytes of the ones before, and served
   * with `numRead` set to the bytes read, the file system answering as the
   * arrival says.
   */
  function Listen(t: map<S.Addr, ClientState>, buf: seq<byte>, arrivals: seq<S.Arrival>): (r: Trace)
    requires |buf| == BodyMaxSize
    ensures |r.sent| == |arrivals|
    decreases |arrivals|
  {
    if arrivals == [] then Trace(t, [])
    else
      var b := Receive(buf, arrivals[0].datagram);
      var s := Serve(t, arrivals[0].from, Received(arrivals[0].datagram), b, arrivals[0].fs);
      var rest := Listen(s.table, b, arrivals[1..]);
      Trace(rest.table, [s.sent] + rest.sent)
  }

  /**
   * Every datagram is answered, and touches the entry of its own address
   * alone; an address gets an entry only from an RRQ or a WRQ.
   */
  lemma ServeTouchesOnlyItsAddress(t: map<S.Addr, ClientState>, addr: S.Addr, numRead: nat, body: seq<byte>, fs: Oracle)
    requires 4 <= |body| && numRead <= |body|
    ensures Serve(t, addr, numRead, body, fs).sent.Some?
    ensures Serve(t, addr, numRead, body, fs).table - {addr} == t - {addr}
    ensures addr !in t && addr in Serve(t, addr, numRead, body, fs).table ==> body[1] in {OpRrq, OpWrq}
  {
    var h := Exchange(Current(t, addr), addr in t, numRead, body, fs);
    if h.present {
      assert t[addr := h.client] - {addr} == t - {addr};
    } else {
      assert t - {addr} - {addr} == t - {addr};
    }
  }

  /**
   * Unlike the library server, main.go never changes a client it sends an
   * ERROR packet to: the table is left as it was, but for a new client's RRQ
   * whose file opened and then could not be read, which stays in the table
   * as it was inserted. Every other answer is a DATA, an ACK or the zero
   * response.
   */
  lemma ErrorKeepsTable(t: map<S.Addr, ClientState>, addr: S.Addr, numRead: nat, body: seq<byte>, fs: Oracle)
    requires 4 <= |body| && numRead <= |body|
    ensures var r := Serve(t, addr, numRead, body, fs);
            r.sent.Some? && 4 <= |r.sent.value| && r.sent.value[1] in {OpUnknown, OpData, OpAck, OpError}
    ensures var r := Serve(t, addr, numRead, body, fs);
            r.sent.Some? && r.sent.value[1] == OpError ==>
              r.table == t || (addr !in t && body[1] == OpRrq && addr in r.table && r.table - {addr} == t)
  {
    var h := Exchange(Current(t, addr), addr in t, numRead, body, fs);
    if h.err.Some? {
      if addr in t {
        assert t[addr := t[addr]] == t;
      } else {
        assert t - {addr} == t;
      }
    }
  }

  /** The `client` of main.go: its address never changes. */
  class Client {
    const tid: S.Addr
    var file: FileRef
    var blockSize: nat
    var bytesLeft: int

    function State(): ClientState
      reads this
    {
      ClientState(file, blockSize, bytesLeft)
    }

    /** `newClient`. */
    constructor (tid: S.Addr)
      ensures this.tid == tid && State() == Fresh
    {
      this.tid := tid;
      file, blockSize, bytesLeft := NoFile, 0, 0;
    }

    /** `prepareFromRequest`. */
    method PrepareFromRequest(req: Request, fs: Oracle) returns (err: Option<Error>)
      modifies this
      ensures State() == Prepare(old(State()), req, fs).client
      ensures err == Prepare(old(State()), req, fs).err
    {
      var outcome := OpenFor(req, fs);
      if outcome.Err? {
        return Some(outcome.error);
      }
      file := outcome.value.file;
      bytesLeft := outcome.value.size;
      blockSize := DefaultBlockSize;
      return None;
    }
  }

  /** main.go's `tftpServer` and its table of clients. */
  class Server {
    var connections: map<S.Addr, Client>

    ghost predicate Valid()
      reads this
    {
      forall a :: a in connections ==> connections[a].tid == a
    }

    ghost function Table(): map<S.Addr, ClientState>
      reads this, connections.Values
    {
      map a | a in connections :: connections[a].State()
    }

    constructor ()
      ensures Valid() && connections == map[]
    {
      connections := map[];
    }

    /** `handleRequest`: inserts the client once its file is open. */
    method HandleRequest(cli: Client, req: Request, fs: Oracle) returns (err: Option<Error>)
      requires Valid() && (cli.tid in connections ==> connections[cli.tid] == cli)
      modifies this, cli
      ensures Valid()
      ensures var a := AfterRequest(old(cli.State()), old(cli.tid in connections), req, fs);
              cli.State() == a.client && err == a.err &&
              connections == if a.inserted then old(connections)[cli.tid := cli] else old(connections)
    {
      if req.opcode < OpRrq || req.opcode > OpError {
        return Some(Tftp(NewTFTPError(IllegalOperation, [])));
      }
      var clientExists := cli.tid in connections;
      if !clientExists && req.opcode != OpRrq && req.opcode != OpWrq {
        return Some(Tftp(NewTFTPError(UnknownTransferId, [])));
      }
      if req.opcode == OpError {
        return None;
      }
      if !clientExists {
        err := cli.PrepareFromRequest(req, fs);
        if err.Some? {
          return;
        }
        connections := connections[cli.tid := cli];
      }
      if req.opcode == OpData {
        var copied := CopyIn(cli.file, req.body, fs.write);
        if copied.Err? {
          return Some(copied.error);
        }
        cli.file := copied.value;
      }
      return None;
    }

    /** `handleResponse`: the DATA built once nothing is left deletes the entry. */
    method HandleResponse(cli: Client, resp: Response, fs: Oracle) returns (err: Option<Error>, sent: Response)
      requires Valid()
      modifies this, cli
      ensures Valid()
      ensures var a := AfterResponse(old(cli.State()), resp, fs);
              cli.State() == a.client && sent == a.resp && err == a.err &&
              connections == if a.removed then old(connections) - {cli.tid} else old(connections)
    {
      sent := resp;
      if resp.opcode == OpData {
        var read := Read(cli.file, |resp.body|, fs.read);
        if read.ReadFailed? {
          return Some(Unexpected(read.fault)), resp;
        }
        if cli.bytesLeft <= 0 {
          cli.file := Closed;
          connections := connections - {cli.tid};
        } else {
          cli.file := read.file;
        }
        sent := resp.(body := read.chunk);
        cli.bytesLeft := cli.bytesLeft - |read.chunk|;
      }
      return None, sent;
    }

    /** The function literal of `handleConnection`. */
    method Process(cli: Client, numRead: nat, body: seq<byte>, fs: Oracle) returns (err: Option<Error>, sent: Option<seq<byte>>)
      requires Valid() && 4 <= |body| && numRead <= |body|
      requires cli.tid in connections ==> connections[cli.tid] == cli
      modifies this, cli
      ensures Valid()
      ensures Exchange(old(cli.State()), old(cli.tid in connections), numRead, body, fs)
              == Handled(cli.State(), cli.tid in connections, err, sent)
      ensures connections - {cli.tid} == old(connections) - {cli.tid}
      ensures cli.tid in connections ==> connections[cli.tid] == cli
    {
      var req := Decode(numRead, body);
      if req.Err? {
        return Some(req.error), None;
      }
      ghost var s := AfterRequest(cli.State(), cli.tid in connections, req.value, fs);
      err := HandleRequest(cli, req.value, fs);
      assert cli.tid in connections <==> old(cli.tid in connections) || s.inserted;
      if err.Some? {
        return err, None;
      }
      var resp := NewResponse(cli.blockSize, req.value);
      var out;
      err, out := HandleResponse(cli, resp, fs);
      if err.Some? {
        return err, None;
      }
      return None, Some(EncodeResponse(out));
    }

    /**
     * When the table changed at `cli.tid` alone, and no client but `cli`
     * did, the table holds `cli`'s state there or nothing.
     */
    twostate lemma TableAround(cli: Client)
      requires old(Valid()) && Valid()
      requires connections - {cli.tid} == old(connections) - {cli.tid}
      requires cli.tid in connections ==> connections[cli.tid] == cli
      requires unchanged(old(connections).Values - {cli})
      ensures Table() == if cli.tid in connections then old(Table())[cli.tid := cli.State()]
                         else old(Table()) - {cli.tid}
    {
      forall a | a in connections && a != cli.tid
        ensures a in old(connections) && connections[a] == old(connections)[a]
        ensures Table()[a] == old(Table())[a]
      {
        assert a in connections - {cli.tid};
        assert a in old(connections) - {cli.tid};
        assert connections[a] in old(connections).Values - {cli};
      }
      forall a | a in old(connections) && a != cli.tid
        ensures a in connections
      {
        assert a in old(connections) - {cli.tid};
      }
    }

    /** When the table changed at `cli.tid` alone, its clients are the old ones and `cli`. */
    twostate lemma ClientsAround(cli: Client)
      requires connections - {cli.tid} == old(connections) - {cli.tid}
      requires cli.tid in connections ==> connections[cli.tid] == cli
      ensures forall c :: c in connections.Values ==> c in old(connections).Values || c == cli
    {
      forall c | c in connections.Values
        ensures c in old(connections).Values || c == cli
      {
        var a :| a in connections && connections[a] == c;
        if a != cli.tid {
          assert a in connections - {cli.tid};
          assert a in old(connections) - {cli.tid};
        }
      }
    }

    /** `handleConnection` of main.go. */
    method HandleConnection(addr: S.Addr, numRead: nat, body: seq<byte>, fs: Oracle) returns (sent: Option<seq<byte>>)
      requires Valid() && 4 <= |body| && numRead <= |body|
      modifies this, connections.Values
      ensures Valid()
      ensures forall c :: c in connections.Values ==> c in old(connections.Values) || fresh(c)
      ensures Table() == Serve(old(Table()), addr, numRead, body, fs).table
      ensures sent == Serve(old(Table()), addr, numRead, body, fs).sent
    {
      ghost var t := Table();
      var cli: Client;
      if addr in connections {
        cli := connections[addr];
      } else {
        cli := new Client(addr);
      }
      assert cli.State() == Current(t, addr) && (cli.tid in connections <==> addr in t);
      ghost var h := Exchange(Current(t, addr), addr in t, numRead, body, fs);
      assert Serve(t, addr, numRead, body, fs) == Settle(t, addr, h);
      label Start:
      var err;
      err, sent := Process(cli, numRead, body, fs);
      TableAround@Start(cli);
      ClientsAround@Start(cli);
      assert h == Handled(cli.State(), cli.tid in connections, err, sent);
      if err.Some? {
        sent := Some(ErrorPacket(S.Reported(err.value)));
      }
    }

    /** `ReadFrom` into the buffer: the datagram's bytes over its head, at most the buffer's length. */
    method ReadFrom(body: array<byte>, d: seq<byte>) returns (numRead: nat)
      requires body.Length == BodyMaxSize
      modifies body
      ensures numRead == Received(d) && body[..] == Receive(old(body[..]), d)
      ensures Table() == old(Table())
    {
      numRead := Received(d);
      forall k | 0 <= k < numRead {
        body[k] := d[k];
      }
      assert body[..] == Receive(old(body[..]), d) by {
        var b := Receive(old(body[..]), d);
        forall k | 0 <= k < BodyMaxSize
          ensures body[k] == b[k]
        {
          if k < numRead {
            assert b[..numRead][k] == d[..numRead][k];
          } else {
            assert b[numRead..][k - numRead] == old(body[..])[numRead..][k - numRead];
          }
        }
      }
    }

    /** One turn of `listenAndServe`'s loop: read the next datagram into the buffer and serve it. */
    method ServeNext(body: array<byte>, arrivals: seq<S.Arrival>) returns (answer: Option<seq<byte>>)
      requires Valid() && body.Length == BodyMaxSize && arrivals != []
      modifies this, connections.Values, body
      ensures Valid()
      ensures forall c :: c in connections.Values ==> c in old(connections.Values) || fresh(c)
      ensures Listen(old(Table()), old(body[..]), arrivals)
              == Trace(Listen(Table(), body[..], arrivals[1..]).table,
                       [answer] + Listen(Table(), body[..], arrivals[1..]).sent)
    {
      ghost var t := Table();
      ghost var before := body[..];
      var numRead := ReadFrom(body, arrivals[0].datagram);
      ghost var s := Serve(t, arrivals[0].from, numRead, body[..], arrivals[0].fs);
      answer := HandleConnection(arrivals[0].from, numRead, body[..], arrivals[0].fs);
      ListenStep(t, before, arrivals, body[..], s);
    }

    /**
     * main.go's `listenAndServe` over the datagrams that arrive, in order:
     * one buffer, allocated zeroed before the loop, receives every datagram
     * over what the earlier ones left in it.
     */
    method ListenAndServe(arrivals: seq<S.Arrival>) returns (sent: seq<Option<seq<byte>>>)
      requires Valid()
      modifies this, connections.Values
      ensures Valid()
      ensures Listen(old(Table()), Zeros(BodyMaxSize), arrivals) == Trace(Table(), sent)
    {
      var body := new byte[BodyMaxSize](_ => 0);
      assert body[..] == Zeros(BodyMaxSize);
      sent := [];
      var i := 0;
      while i < |arrivals|
        invariant 0 <= i <= |arrivals| && Valid()
        invariant fresh(body) && body.Length == BodyMaxSize
        invariant forall c :: c in connections.Values ==> c in old(connections.Values) || fresh(c)
        invariant Listen(old(Table()), Zeros(BodyMaxSize), arrivals)
                  == Trace(Listen(Table(), body[..], arrivals[i..]).table,
                           sent + Listen(Table(), body[..], arrivals[i..]).sent)
      {
        ghost var rest := Listen(Table(), body[..], arrivals[i..]);
        var answer := ServeNext(body, arrivals[i..]);
        assert arrivals[i..][1..] == arrivals[i + 1..];
        TraceRegrouped(Listen(old(Table()), Zeros(BodyMaxSize), arrivals), sent, rest, answer,
                       Listen(Table(), body[..], arrivals[i + 1..]));
        sent := sent + [answer];
        i := i + 1;
      }
    }
  }

  /** The first datagram of main.go's loop, served as `s` says, and the loop over the rest. */
  lemma ListenStep(t: map<S.Addr, ClientState>, buf: seq<byte>, arrivals: seq<S.Arrival>, b: seq<byte>, s: Served)
    requires |buf| == BodyMaxSize && arrivals != [] && b == Receive(buf, arrivals[0].datagram)
    requires s == Serve(t, arrivals[0].from, Received(arrivals[0].datagram), b, arrivals[0].fs)
    ensures Listen(t, buf, arrivals)
            == Trace(Listen(s.table, b, arrivals[1..]).table, [s.sent] + Listen(s.table, b, arrivals[1..]).sent)
  {
  }

  /** The answers so far, the next one, and the loop over the rest. */
  lemma TraceRegrouped(whole: Trace, sent: seq<Option<seq<byte>>>, rest: Trace, answer: Option<seq<byte>>, after: Trace)
    requires whole == Trace(rest.table, sent + rest.sent)
    requires rest == Trace(after.table, [answer] + after.sent)
    ensures whole == Trace(after.table, (sent + [answer]) + after.sent)
  {
  }
}
