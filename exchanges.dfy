/**
 * What one datagram does to the library server's table of clients and what
 * it sends back, case by case, stated over `Serve`.
 */
module Exchanges {
  import opened Base
  import opened CStrings
  import opened Packets
  import opened Files
  import opened Session

  /** The ERROR packet for a code whose message is fixed by the table. */
  function Refusal(code: u16): seq<byte>
    requires 1 <= code <= NoSuchUser
  {
    ErrorPacket(NewTFTPError(code, []))
  }

  /** The ERROR packet `handleError` sends for an error that is not a `*tftpError`. */
  const UnexpectedPacket: seq<byte> := ErrorPacket(TftpError(NotDefined, Bytes("Unexpected error.")))

  /** A map updated at a key with the value it holds there is the same map. */
  lemma UpdateWithSame(t: map<Addr, ClientState>, addr: Addr)
    requires addr in t
    ensures t[addr := t[addr]] == t
  {
  }

  /** A datagram that does not decode reaches neither handler. */
  lemma ExchangeUndecodable(c: ClientState, numRead: nat, body: seq<byte>, fs: Oracle)
    requires 4 <= |body| && numRead <= |body| && NewRequest(numRead, body).Err?
    ensures Exchange(c, numRead, body, fs) == Handled(c, Some(NewRequest(numRead, body).error), None)
  {
  }

  /** A request that `handleRequest` accepts and that gets a response `handleResponse` accepts. */
  lemma ExchangeAnswered(c: ClientState, numRead: nat, body: seq<byte>, fs: Oracle,
                         req: Request, c': ClientState, a: Answer)
    requires 4 <= |body| && numRead <= |body| && NewRequest(numRead, body) == Ok(req)
    requires AfterRequest(c, req, fs) == Step(c', None)
    requires AfterResponse(c', NewResponse(c'.blockSize, req), fs) == a && a.err.None?
    ensures Exchange(c, numRead, body, fs) == Handled(a.client, None, Some(EncodeResponse(a.resp)))
  {
  }

  /** A request that `handleRequest` accepts and whose response `handleResponse` fails to fill. */
  lemma ExchangeReadFailed(c: ClientState, numRead: nat, body: seq<byte>, fs: Oracle,
                           req: Request, c': ClientState, e: Error)
    requires 4 <= |body| && numRead <= |body| && NewRequest(numRead, body) == Ok(req)
    requires AfterRequest(c, req, fs) == Step(c', None)
    requires AfterResponse(c', NewResponse(c'.blockSize, req), fs).err == Some(e)
    ensures Exchange(c, numRead, body, fs) == Handled(c', Some(e), None)
  {
  }

  /** A request that `handleRequest` refuses. */
  lemma ExchangeRefused(c: ClientState, numRead: nat, body: seq<byte>, fs: Oracle,
                        req: Request, c': ClientState, e: Error)
    requires 4 <= |body| && numRead <= |body| && NewRequest(numRead, body) == Ok(req)
    requires AfterRequest(c, req, fs) == Step(c', Some(e))
    ensures Exchange(c, numRead, body, fs) == Handled(c', Some(e), None)
  {
  }

  /** A request that `handleRequest` accepts and that gets a non-DATA response. */
  lemma ExchangeWithoutRead(c: ClientState, numRead: nat, body: seq<byte>, fs: Oracle)
    requires 4 <= |body| && numRead <= |body| && NewRequest(numRead, body).Ok?
    requires AfterRequest(c, NewRequest(numRead, body).value, fs).err.None?
    requires body[1] !in {OpRrq, OpAck}
    ensures Exchange(c, numRead, body, fs)
            == var s := AfterRequest(c, NewRequest(numRead, body).value, fs);
               Handled(s.client, None, Some(EncodeResponse(NewResponse(s.client.blockSize, NewRequest(numRead, body).value))))
  {
  }

  /**
   * An opcode outside RRQ..ERROR is refused with code 4 whatever the state of
   * the client, and the client is then marked so that its next ACK ends it.
   */
  lemma IllegalOpcodeRefused(t: map<Addr, ClientState>, addr: Addr, numRead: nat, body: seq<byte>, fs: Oracle)
    requires 4 <= |body| && numRead <= |body|
    requires body[1] == OpUnknown || body[1] > OpError
    ensures Serve(t, addr, numRead, body, fs).sent == Some(Refusal(IllegalOperation))
    ensures Serve(t, addr, numRead, body, fs).table == t[addr := AfterError(Current(t, addr))]
  {
    var c := Current(t, addr);
    var req := Request(body[1], 0, [], [], [], body[2..]);
    assert NewRequest(numRead, body) == Ok(req);
    assert AfterRequest(c, req, fs).err == Some(Tftp(NewTFTPError(IllegalOperation, [])));
  }

  /**
   * A DATA, ACK or ERROR from an address that has not started a transfer
   * (no entry, or one that never got past `prepareFromRequest`) is refused
   * with code 5.
   */
  lemma UnknownTransferRefused(t: map<Addr, ClientState>, addr: Addr, numRead: nat, body: seq<byte>, fs: Oracle)
    requires 4 <= |body| && numRead <= |body|
    requires body[1] in {OpData, OpAck, OpError} && NewRequest(numRead, body).Ok?
    requires !Current(t, addr).inited
    ensures Serve(t, addr, numRead, body, fs).sent == Some(Refusal(UnknownTransferId))
    ensures Serve(t, addr, numRead, body, fs).table == t[addr := AfterError(Current(t, addr))]
  {
    var c := Current(t, addr);
    var req := NewRequest(numRead, body).value;
    assert AfterRequest(c, req, fs).err == Some(Tftp(NewTFTPError(UnknownTransferId, [])));
  }

  /**
   * The ACK that follows the last DATA block (or any ERROR packet sent to
   * the client) removes the client's entry, and nothing is sent.
   */
  lemma LastAckEndsSession(t: map<Addr, ClientState>, addr: Addr, numRead: nat, body: seq<byte>, fs: Oracle)
    requires 4 <= numRead <= |body| && body[1] == OpAck
    requires addr in t && t[addr].inited && t[addr].lastPkt
    ensures Serve(t, addr, numRead, body, fs) == Served(t - {addr}, None)
  {
    var req := NewRequest(numRead, body).value;
    assert AfterRequest(t[addr], req, fs).err == Some(EndOfSession);
  }

  /**
   * A datagram whose decoding fails (no NUL terminator, or a DATA/ACK
   * shorter than its four-byte header) is answered with "Unexpected error."
   * under code 0.
   */
  lemma UndecodableAnswered(t: map<Addr, ClientState>, addr: Addr, numRead: nat, body: seq<byte>, fs: Oracle)
    requires 4 <= |body| && numRead <= |body|
    requires ParseRequest(numRead, body) in {NoTerminator, SliceOutOfRange}
    ensures Serve(t, addr, numRead, body, fs).sent == Some(UnexpectedPacket)
    ensures Serve(t, addr, numRead, body, fs).table == t[addr := AfterError(Current(t, addr))]
  {
    var c := Current(t, addr);
    var e := NewRequest(numRead, body).error;
    assert e.Unexpected?;
    ExchangeUndecodable(c, numRead, body, fs);
    assert Serve(t, addr, numRead, body, fs) == Settle(t, addr, Handled(c, Some(e), None));
    assert Settle(t, addr, Handled(c, Some(e), None)) == Served(t[addr := AfterError(c)], Some(ErrorPacket(Reported(e))));
    assert Reported(e) == TftpError(NotDefined, Bytes("Unexpected error."));
  }

  /** The corrected decoder answers a two-byte ACK instead of failing on it. */
  lemma ShortAckAnswered(t: map<Addr, ClientState>, addr: Addr, fs: Oracle)
    ensures Serve(t, addr, 2, [0, OpAck, 0, 0], fs).sent == Some(UnexpectedPacket)
  {
    ShortAckReachesBadSlice();
    UndecodableAnswered(t, addr, 2, [0, OpAck, 0, 0], fs);
  }

  /**
   * An ERROR from a client in a transfer is logged and answered with the
   * zero response, four zero bytes; the client is left as it was.
   */
  lemma PeerErrorAnsweredWithZeros(t: map<Addr, ClientState>, addr: Addr, numRead: nat, body: seq<byte>, fs: Oracle)
    requires 4 <= |body| && numRead <= |body|
    requires body[1] == OpError && NewRequest(numRead, body).Ok?
    requires addr in t && t[addr].inited
    ensures Serve(t, addr, numRead, body, fs) == Served(t, Some([0, 0, 0, 0]))
  {
    var c := t[addr];
    var req := NewRequest(numRead, body).value;
    assert AfterRequest(c, req, fs) == Step(c, None);
    ExchangeWithoutRead(c, numRead, body, fs);
    assert EncodeResponse(NewResponse(c.blockSize, req)) == [0, 0, 0, 0];
    UpdateWithSame(t, addr);
  }

  /**
   * Any ERROR packet the server sends marks the client so that its next ACK,
   * whatever it acknowledges, deletes the entry and gets no answer.
   */
  lemma ErrorSentThenAckEnds(t: map<Addr, ClientState>, addr: Addr, numRead: nat, body: seq<byte>, fs: Oracle,
                             ackRead: nat, ack: seq<byte>, fs': Oracle)
    requires 4 <= |body| && numRead <= |body|
    requires Serve(t, addr, numRead, body, fs).sent.Some?
    requires 4 <= |Serve(t, addr, numRead, body, fs).sent.value|
    requires Serve(t, addr, numRead, body, fs).sent.value[1] == OpError
    requires 4 <= ackRead <= |ack| && ack[1] == OpAck
    ensures var t' := Serve(t, addr, numRead, body, fs).table;
            Serve(t', addr, ackRead, ack, fs') == Served(t' - {addr}, None)
  {
    var h := Exchange(Current(t, addr), numRead, body, fs);
    var t' := Serve(t, addr, numRead, body, fs).table;
    assert h.err.Some? && h.err != Some(EndOfSession);
    assert t' == t[addr := AfterError(h.client)];
    LastAckEndsSession(t', addr, ackRead, ack, fs');
  }

  // ---------------------------------------------------------------------
  // Transfers one datagram at a time

  /** The DATA packet with block number `n` (mod 2^16). */
  function Data(n: nat, payload: seq<byte>): seq<byte>
  {
    EncodeResponse(Response(OpData, n % 65536, payload))
  }

  /** The ACK packet with block number `n` (mod 2^16). */
  function Ack(n: nat): seq<byte>
  {
    EncodeResponse(Response(OpAck, n % 65536, []))
  }

  /** The next DATA payload of a file with `u` bytes left: at most one block. */
  function Chunk(u: seq<byte>): (b: seq<byte>)
    ensures |b| == if |u| < DefaultBlockSize then |u| else DefaultBlockSize
    ensures b <= u
  {
    if |u| < DefaultBlockSize then u else u[..DefaultBlockSize]
  }

  /** A client reading a file of which `u` has not been sent. */
  function Reading(u: seq<byte>): ClientState
  {
    ClientState(Open(Reader(u)), true, false, DefaultBlockSize, |u|)
  }

  /** A reading client once its last (empty) DATA block has gone: the file is closed. */
  const Finished := ClientState(Closed, true, true, DefaultBlockSize, 0)

  /** A client writing a file that holds `w` so far. */
  function Writing(w: seq<byte>): ClientState
  {
    ClientState(Open(Writer(w)), true, false, DefaultBlockSize, 0)
  }

  /**
   * The reading client after one DATA block: the block is cut from the
   * unread part, and the file is closed after the block sent when nothing
   * was left, which is therefore empty.
   */
  function AfterBlock(u: seq<byte>): ClientState
  {
    if u == [] then Finished else Reading(u[|Chunk(u)|..])
  }

  /** `handleResponse` on a DATA response to a reading client whose read succeeds. */
  lemma ReadStep(u: seq<byte>, n: u16, fs: Oracle)
    requires fs.read == Done
    ensures AfterResponse(Reading(u), Response(OpData, n, Zeros(DefaultBlockSize)), fs)
            == Answer(AfterBlock(u), Response(OpData, n, Chunk(u)), None)
  {
    var k := |Chunk(u)|;
    assert Read(Open(Reader(u)), DefaultBlockSize, fs.read) == Got(u[..k], Open(Reader(u[k..])));
    assert u[..k] == Chunk(u);
  }

  /** An ACK to a reading client is answered with the next block, numbered one past the ACK. */
  lemma AckSendsNextBlock(t: map<Addr, ClientState>, addr: Addr, n: nat, u: seq<byte>, fs: Oracle)
    requires addr in t && t[addr] == Reading(u) && fs.read == Done
    ensures Serve(t, addr, 4, Ack(n), fs) == Served(t[addr := AfterBlock(u)], Some(Data(n + 1, Chunk(u))))
  {
    AckExchange(n, u, fs);
  }

  /** `Ack(n)` decodes to the ACK of block `n` mod 2^16. */
  lemma AckDecodes(n: nat)
    ensures NewRequest(4, Ack(n)) == Ok(Request(OpAck, n % 65536, [], [], [], []))
  {
    DataAckRoundTrip(Response(OpAck, n % 65536, []), []);
    assert Ack(n) + [] == Ack(n);
  }

  /** `Data(n, payload)` decodes to the DATA of block `n` mod 2^16 carrying `payload`. */
  lemma DataDecodes(n: nat, payload: seq<byte>)
    ensures NewRequest(|Data(n, payload)|, Data(n, payload)) == Ok(Request(OpData, n % 65536, [], [], [], payload))
  {
    DataAckRoundTrip(Response(OpData, n % 65536, payload), []);
    assert Data(n, payload) + [] == Data(n, payload);
  }

  lemma AckExchange(n: nat, u: seq<byte>, fs: Oracle)
    requires fs.read == Done
    ensures Exchange(Reading(u), 4, Ack(n), fs) == Handled(AfterBlock(u), None, Some(Data(n + 1, Chunk(u))))
  {
    var req := Request(OpAck, n % 65536, [], [], [], []);
    AckDecodes(n);
    AckToReader(u, req, fs);
    var m := (n + 1) % 65536;
    NextNumber(n);
    assert NewResponse(DefaultBlockSize, req) == Response(OpData, m, Zeros(DefaultBlockSize));
    ReadStep(u, m, fs);
    ExchangeAnswered(Reading(u), 4, Ack(n), fs, req, Reading(u), Answer(AfterBlock(u), Response(OpData, m, Chunk(u)), None));
  }

  /** The block after `n`, counted modulo 2^16 before or after the increment. */
  lemma NextNumber(n: nat)
    ensures (n % 65536 + 1) % 65536 == (n + 1) % 65536
  {
  }

  /** `handleRequest` lets an ACK to a reading client through unchanged. */
  lemma AckToReader(u: seq<byte>, req: Request, fs: Oracle)
    requires req.opcode == OpAck
    ensures AfterRequest(Reading(u), req, fs) == Step(Reading(u), None)
  {
  }

  /** A new client's RRQ for a file that opens gets block 1, and the client starts reading. */
  lemma RrqSendsFirstBlock(t: map<Addr, ClientState>, addr: Addr, name: seq<byte>, fs: Oracle)
    requires Current(t, addr) == Fresh && 0 !in name && fs.open == Done && fs.read == Done
    ensures var p := TransferRequest(OpRrq, name, Octet);
            Serve(t, addr, |p|, p, fs) == Served(t[addr := AfterBlock(fs.content)], Some(Data(1, Chunk(fs.content))))
  {
    var p := TransferRequest(OpRrq, name, Octet);
    OctetHasNoNul();
    TransferRequestRoundTrip(OpRrq, name, Octet, [], |p|);
    assert p + [] == p;
    var req := Request(OpRrq, 0, name, Octet, [], []);
    assert NewRequest(|p|, p) == Ok(req);
    RrqAdmitted(name, fs);
    ExchangeAnswered(Fresh, |p|, p, fs, req, Reading(fs.content),
                     Answer(AfterBlock(fs.content), Response(OpData, 1, Chunk(fs.content)), None));
  }

  /** `handleRequest` and `handleResponse` on a new client's RRQ for a file that opens. */
  lemma RrqAdmitted(name: seq<byte>, fs: Oracle)
    requires fs.open == Done && fs.read == Done
    ensures var req := Request(OpRrq, 0, name, Octet, [], []);
            && AfterRequest(Fresh, req, fs) == Step(Reading(fs.content), None)
            && NewResponse(DefaultBlockSize, req) == Response(OpData, 1, Zeros(DefaultBlockSize))
            && AfterResponse(Reading(fs.content), Response(OpData, 1, Zeros(DefaultBlockSize)), fs)
               == Answer(AfterBlock(fs.content), Response(OpData, 1, Chunk(fs.content)), None)
  {
    var req := Request(OpRrq, 0, name, Octet, [], []);
    assert AfterRequest(Fresh, req, fs) == Step(Reading(fs.content), None);
    ReadStep(fs.content, 1, fs);
  }

  /**
   * A new client's RRQ for a path that opens but whose read fails (a
   * directory, say) is answered with "Unexpected error." under code 0; the
   * client stays in the table, inited with its file open, and marked so
   * that its next ACK ends it.
   */
  lemma RrqReadFailureAnswered(t: map<Addr, ClientState>, addr: Addr, name: seq<byte>, fs: Oracle)
    requires Current(t, addr) == Fresh && 0 !in name && fs.open == Done && fs.read.Failed?
    ensures var p := TransferRequest(OpRrq, name, Octet);
            Serve(t, addr, |p|, p, fs) == Served(t[addr := AfterError(Reading(fs.content))], Some(UnexpectedPacket))
  {
    var p := TransferRequest(OpRrq, name, Octet);
    OctetHasNoNul();
    TransferRequestRoundTrip(OpRrq, name, Octet, [], |p|);
    assert p + [] == p;
    var req := Request(OpRrq, 0, name, Octet, [], []);
    assert NewRequest(|p|, p) == Ok(req);
    assert AfterRequest(Fresh, req, fs) == Step(Reading(fs.content), None);
    var e := Unexpected(OsError(fs.read.err));
    ExchangeReadFailed(Fresh, |p|, p, fs, req, Reading(fs.content), e);
    assert Reported(e) == TftpError(NotDefined, Bytes("Unexpected error."));
  }

  /** An ACK to a reading client whose next read fails is answered with "Unexpected error." under code 0. */
  lemma AckReadFailureAnswered(t: map<Addr, ClientState>, addr: Addr, n: nat, u: seq<byte>, fs: Oracle)
    requires addr in t && t[addr] == Reading(u) && fs.read.Failed?
    ensures Serve(t, addr, 4, Ack(n), fs) == Served(t[addr := AfterError(Reading(u))], Some(UnexpectedPacket))
  {
    var req := Request(OpAck, n % 65536, [], [], [], []);
    AckDecodes(n);
    AckToReader(u, req, fs);
    var e := Unexpected(OsError(fs.read.err));
    ExchangeReadFailed(Reading(u), 4, Ack(n), fs, req, Reading(u), e);
    assert Reported(e) == TftpError(NotDefined, Bytes("Unexpected error."));
  }

  /** A new client's RRQ for a file that does not open is refused as the open error says. */
  lemma RrqOpenFailureRefused(t: map<Addr, ClientState>, addr: Addr, name: seq<byte>, fs: Oracle)
    requires Current(t, addr) == Fresh && 0 !in name && fs.open.Failed?
    ensures var p := TransferRequest(OpRrq, name, Octet);
            Serve(t, addr, |p|, p, fs) == Served(t[addr := AfterError(Fresh)], Some(ErrorPacket(Reported(OpenError(fs.open.err)))))
  {
    var p := TransferRequest(OpRrq, name, Octet);
    OctetHasNoNul();
    TransferRequestRoundTrip(OpRrq, name, Octet, [], |p|);
    assert p + [] == p;
    var req := Request(OpRrq, 0, name, Octet, [], []);
    assert NewRequest(|p|, p) == Ok(req);
    assert AfterRequest(Fresh, req, fs) == Step(Fresh, Some(OpenError(fs.open.err)));
  }

  /** A new client's WRQ for a path that does not exist is acknowledged with block 0. */
  lemma WrqAcknowledged(t: map<Addr, ClientState>, addr: Addr, name: seq<byte>, fs: Oracle)
    requires Current(t, addr) == Fresh && 0 !in name
    requires fs.stat == Failed(NotFound) && fs.open == Done
    ensures var p := TransferRequest(OpWrq, name, Octet);
            Serve(t, addr, |p|, p, fs) == Served(t[addr := Writing([])], Some(Ack(0)))
  {
    var p := TransferRequest(OpWrq, name, Octet);
    OctetHasNoNul();
    TransferRequestRoundTrip(OpWrq, name, Octet, [], |p|);
    assert p + [] == p;
    var req := Request(OpWrq, 0, name, Octet, [], []);
    assert NewRequest(|p|, p) == Ok(req);
    assert AfterRequest(Fresh, req, fs) == Step(Writing([]), None);
    ExchangeWithoutRead(Fresh, |p|, p, fs);
  }

  /** A WRQ for a path that `os.Stat` does not report missing is refused with code 6. */
  lemma WrqOverExistingRefused(t: map<Addr, ClientState>, addr: Addr, name: seq<byte>, fs: Oracle)
    requires Current(t, addr) == Fresh && 0 !in name && fs.stat != Failed(NotFound)
    ensures var p := TransferRequest(OpWrq, name, Octet);
            Serve(t, addr, |p|, p, fs) == Served(t[addr := AfterError(Fresh)], Some(Refusal(FileAlreadyExists)))
  {
    var p := TransferRequest(OpWrq, name, Octet);
    OctetHasNoNul();
    TransferRequestRoundTrip(OpWrq, name, Octet, [], |p|);
    assert p + [] == p;
    var req := Request(OpWrq, 0, name, Octet, [], []);
    assert NewRequest(|p|, p) == Ok(req);
    assert AfterRequest(Fresh, req, fs).err == Some(Tftp(NewTFTPError(FileAlreadyExists, [])));
  }

  /** A DATA to a writing client is appended to the file and acknowledged with its own number. */
  lemma DataAppended(t: map<Addr, ClientState>, addr: Addr, n: nat, payload: seq<byte>, w: seq<byte>, fs: Oracle)
    requires addr in t && t[addr] == Writing(w) && fs.write == Done
    ensures var p := Data(n, payload);
            Serve(t, addr, |p|, p, fs) == Served(t[addr := Writing(w + payload)], Some(Ack(n)))
  {
    var p := Data(n, payload);
    var req := Request(OpData, n % 65536, [], [], [], payload);
    DataDecodes(n, payload);
    if payload == [] {
      assert w + payload == w;
    }
    assert CopyIn(Open(Writer(w)), payload, Done) == Ok(Open(Writer(w + payload)));
    assert AfterRequest(Writing(w), req, fs) == Step(Writing(w + payload), None);
    ExchangeWithoutRead(Writing(w), |p|, p, fs);
  }

  /** A non-empty DATA that finds the disk full is refused with code 3. */
  lemma DiskFullRefused(t: map<Addr, ClientState>, addr: Addr, n: nat, payload: seq<byte>, w: seq<byte>, fs: Oracle)
    requires addr in t && t[addr] == Writing(w) && payload != [] && fs.write == Failed(NoSpace)
    ensures var p := Data(n, payload);
            Serve(t, addr, |p|, p, fs) == Served(t[addr := AfterError(Writing(w))], Some(Refusal(DiskFull)))
  {
    var p := Data(n, payload);
    var e := Tftp(NewTFTPError(DiskFull, []));
    DiskFullExchange(n, payload, w, fs);
    assert Serve(t, addr, |p|, p, fs) == Settle(t, addr, Handled(Writing(w), Some(e), None));
  }

  lemma DiskFullExchange(n: nat, payload: seq<byte>, w: seq<byte>, fs: Oracle)
    requires payload != [] && fs.write == Failed(NoSpace)
    ensures var p := Data(n, payload);
            Exchange(Writing(w), |p|, p, fs) == Handled(Writing(w), Some(Tftp(NewTFTPError(DiskFull, []))), None)
  {
    var p := Data(n, payload);
    var req := Request(OpData, n % 65536, [], [], [], payload);
    DataDecodes(n, payload);
    var e := Tftp(NewTFTPError(DiskFull, []));
    DiskFullWrite(w, req, fs);
    ExchangeRefused(Writing(w), |p|, p, fs, req, Writing(w), e);
  }

  /** `handleRequest` refuses a non-empty DATA with code 3 when the disk is full. */
  lemma DiskFullWrite(w: seq<byte>, req: Request, fs: Oracle)
    requires req.opcode == OpData && req.body != [] && fs.write == Failed(NoSpace)
    ensures AfterRequest(Writing(w), req, fs) == Step(Writing(w), Some(Tftp(NewTFTPError(DiskFull, []))))
  {
  }
}
