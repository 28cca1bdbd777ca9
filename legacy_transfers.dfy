/**
 * What one datagram, and then a whole transfer, does to main.go's table of
 * clients and what it sends back, stated over `Legacy.Serve`; and where the
 * two servers part ways on the same datagrams.
 */
module LegacyTransfers {
  import opened Base
  import opened Packets
  import opened Files
  import opened Legacy
  import S = Session
  import X = Exchanges
  import T = Transfers

  /** A main.go client reading a file of which `u` has not been sent. */
  function Reading(u: seq<byte>): ClientState
  {
    ClientState(Open(Reader(u)), DefaultBlockSize, |u|)
  }

  /** A main.go client writing a file that holds `w` so far. */
  function Writing(w: seq<byte>): ClientState
  {
    ClientState(Open(Writer(w)), DefaultBlockSize, 0)
  }

  /** The reading client after one DATA block: the file is closed after the block sent when nothing was left. */
  function AfterBlock(u: seq<byte>): ClientState
  {
    if u == [] then ClientState(Closed, DefaultBlockSize, 0) else Reading(u[|X.Chunk(u)|..])
  }

  /**
   * The table once the block cut from `u` has been built: the entry goes
   * with the block sent when nothing was left, and otherwise holds the rest.
   */
  function AfterSending(t: map<S.Addr, ClientState>, addr: S.Addr, u: seq<byte>): map<S.Addr, ClientState>
  {
    if u == [] then t - {addr} else t[addr := AfterBlock(u)]
  }

  // ---------------------------------------------------------------------
  // The function literal of `handleConnection`, path by path

  lemma ExchangeUndecodable(c: ClientState, known: bool, numRead: nat, body: seq<byte>, fs: Oracle)
    requires 4 <= |body| && numRead <= |body| && Decode(numRead, body).Err?
    ensures Exchange(c, known, numRead, body, fs) == Handled(c, known, Some(Decode(numRead, body).error), None)
  {
  }

  lemma ExchangeRefused(c: ClientState, known: bool, numRead: nat, body: seq<byte>, fs: Oracle,
                        req: Request, a: Admission)
    requires 4 <= |body| && numRead <= |body| && Decode(numRead, body) == Ok(req)
    requires AfterRequest(c, known, req, fs) == a && a.err.Some?
    ensures Exchange(c, known, numRead, body, fs) == Handled(a.client, known || a.inserted, a.err, None)
  {
  }

  lemma ExchangeAnswered(c: ClientState, known: bool, numRead: nat, body: seq<byte>, fs: Oracle,
                         req: Request, s: Admission, a: Answer)
    requires 4 <= |body| && numRead <= |body| && Decode(numRead, body) == Ok(req)
    requires AfterRequest(c, known, req, fs) == s && s.err.None?
    requires AfterResponse(s.client, NewResponse(s.client.blockSize, req), fs) == a && a.err.None?
    ensures Exchange(c, known, numRead, body, fs)
            == Handled(a.client, (known || s.inserted) && !a.removed, None, Some(EncodeResponse(a.resp)))
  {
  }

  /** A read that fails in `handleResponse` leaves the client as `handleRequest` left it. */
  lemma ExchangeReadFailed(c: ClientState, known: bool, numRead: nat, body: seq<byte>, fs: Oracle,
                           req: Request, s: Admission, e: Error)
    requires 4 <= |body| && numRead <= |body| && Decode(numRead, body) == Ok(req)
    requires AfterRequest(c, known, req, fs) == s && s.err.None?
    requires AfterResponse(s.client, NewResponse(s.client.blockSize, req), fs).err == Some(e)
    ensures Exchange(c, known, numRead, body, fs) == Handled(s.client, known || s.inserted, Some(e), None)
  {
  }

  /** A refusal sends the ERROR packet and leaves the table as it was. */
  lemma RefusalSettled(t: map<S.Addr, ClientState>, addr: S.Addr, e: Error)
    ensures Settle(t, addr, Handled(Current(t, addr), addr in t, Some(e), None))
            == Served(t, Some(ErrorPacket(S.Reported(e))))
  {
    if addr in t {
      assert t[addr := t[addr]] == t;
    } else {
      assert t - {addr} == t;
    }
  }

  /** An answer that leaves a client in place as it was leaves the table as it was. */
  lemma AnsweredSettled(t: map<S.Addr, ClientState>, addr: S.Addr, c: ClientState, p: seq<byte>)
    requires addr in t && t[addr] == c
    ensures Settle(t, addr, Handled(c, true, None, Some(p))) == Served(t, Some(p))
  {
    assert t[addr := c] == t;
  }

  /** `Ack(n)` decodes, in main.go as in the library, to the ACK of block `n` mod 2^16. */
  lemma AckDecodes(n: nat)
    ensures Decode(4, X.Ack(n)) == Ok(Request(OpAck, n % 65536, [], [], [], []))
  {
    X.AckDecodes(n);
  }

  /** `Data(n, payload)` decodes to the DATA of block `n` mod 2^16 carrying `payload`. */
  lemma DataDecodes(n: nat, payload: seq<byte>)
    ensures Decode(|X.Data(n, payload)|, X.Data(n, payload)) == Ok(Request(OpData, n % 65536, [], [], [], payload))
  {
    X.DataDecodes(n, payload);
  }

  /** A transfer request decodes to itself, its mode being "octet". */
  lemma TransferDecodes(op: byte, name: seq<byte>)
    requires op in {OpRrq, OpWrq} && 0 !in name
    ensures var p := TransferRequest(op, name, Octet);
            Decode(|p|, p) == Ok(Request(op, 0, name, Octet, [], []))
  {
    var p := TransferRequest(op, name, Octet);
    OctetHasNoNul();
    TransferRequestRoundTrip(op, name, Octet, [], |p|);
    assert p + [] == p;
  }

  // ---------------------------------------------------------------------
  // One datagram

  /** An opcode outside RRQ..ERROR is refused with code 4, and the table is left alone. */
  lemma IllegalOpcodeRefused(t: map<S.Addr, ClientState>, addr: S.Addr, numRead: nat, body: seq<byte>, fs: Oracle)
    requires 4 <= |body| && numRead <= |body|
    requires body[1] == OpUnknown || body[1] > OpError
    ensures Serve(t, addr, numRead, body, fs) == Served(t, Some(X.Refusal(IllegalOperation)))
  {
    var c := Current(t, addr);
    var req := Request(body[1], 0, [], [], [], body[2..]);
    assert Decode(numRead, body) == Ok(req);
    var e := Tftp(NewTFTPError(IllegalOperation, []));
    ExchangeRefused(c, addr in t, numRead, body, fs, req, Admission(c, Some(e), false));
    RefusalSettled(t, addr, e);
  }

  /**
   * A DATA, ACK or ERROR from an address without an entry (one that never
   * opened a file, or whose read has ended) is refused with code 5, and no
   * entry is made for it.
   */
  lemma UnknownTransferRefused(t: map<S.Addr, ClientState>, addr: S.Addr, numRead: nat, body: seq<byte>, fs: Oracle)
    requires 4 <= |body| && numRead <= |body|
    requires body[1] in {OpData, OpAck, OpError} && Decode(numRead, body).Ok?
    requires addr !in t
    ensures Serve(t, addr, numRead, body, fs) == Served(t, Some(X.Refusal(UnknownTransferId)))
  {
    var req := Decode(numRead, body).value;
    var e := Tftp(NewTFTPError(UnknownTransferId, []));
    ExchangeRefused(Fresh, false, numRead, body, fs, req, Admission(Fresh, Some(e), false));
    RefusalSettled(t, addr, e);
  }

  /**
   * A new client's RRQ or WRQ whose file work fails is refused as that
   * failure says, and the client is not put in the table.
   */
  lemma PrepareFailureRefused(t: map<S.Addr, ClientState>, addr: S.Addr, numRead: nat, body: seq<byte>, fs: Oracle)
    requires 4 <= |body| && numRead <= |body| && addr !in t
    requires Decode(numRead, body).Ok? && body[1] in {OpRrq, OpWrq}
    requires OpenFor(Decode(numRead, body).value, fs).Err?
    ensures Serve(t, addr, numRead, body, fs)
            == Served(t, Some(ErrorPacket(S.Reported(OpenFor(Decode(numRead, body).value, fs).error))))
  {
    var req := Decode(numRead, body).value;
    var e := OpenFor(req, fs).error;
    ExchangeRefused(Fresh, false, numRead, body, fs, req, Admission(Fresh, Some(e), false));
    RefusalSettled(t, addr, e);
  }

  /**
   * A request whose mode is not "octet" gets code 0 with the unformatted
   * template and the mode joined by a space; the table is left alone.
   */
  lemma BadModeRefused(t: map<S.Addr, ClientState>, addr: S.Addr, numRead: nat, body: seq<byte>, fs: Oracle)
    requires 4 <= |body| && numRead <= |body|
    requires ParseRequest(numRead, body).BadMode?
    ensures Serve(t, addr, numRead, body, fs)
            == Served(t, Some(ErrorPacket(TftpError(NotDefined, ModeTemplate + [32] + ParseRequest(numRead, body).mode))))
  {
    var te := TftpError(NotDefined, ModeTemplate + [32] + ParseRequest(numRead, body).mode);
    RefusedWith(t, addr, numRead, body, fs, te);
  }

  /** A datagram that decodes to a `*tftpError` gets that error, and the table is left alone. */
  lemma RefusedWith(t: map<S.Addr, ClientState>, addr: S.Addr, numRead: nat, body: seq<byte>, fs: Oracle, te: TftpError)
    requires 4 <= |body| && numRead <= |body| && Decode(numRead, body) == Err(Tftp(te))
    ensures Serve(t, addr, numRead, body, fs) == Served(t, Some(ErrorPacket(te)))
  {
    ExchangeUndecodable(Current(t, addr), addr in t, numRead, body, fs);
    assert Serve(t, addr, numRead, body, fs) == Settle(t, addr, Handled(Current(t, addr), addr in t, Some(Tftp(te)), None));
    RefusalSettled(t, addr, Tftp(te));
  }

  /**
   * A datagram whose decoding fails (no NUL terminator, or a DATA/ACK
   * shorter than its header) gets "Unexpected error." under code 0.
   */
  lemma UndecodableAnswered(t: map<S.Addr, ClientState>, addr: S.Addr, numRead: nat, body: seq<byte>, fs: Oracle)
    requires 4 <= |body| && numRead <= |body|
    requires ParseRequest(numRead, body) in {NoTerminator, SliceOutOfRange}
    ensures Serve(t, addr, numRead, body, fs) == Served(t, Some(X.UnexpectedPacket))
  {
    var e := Decode(numRead, body).error;
    assert e.Unexpected?;
    ExchangeUndecodable(Current(t, addr), addr in t, numRead, body, fs);
    RefusalSettled(t, addr, e);
    assert S.Reported(e) == TftpError(NotDefined, Bytes("Unexpected error."));
  }

  /** An ERROR from a client in a transfer is answered with four zero bytes; its entry stays. */
  lemma PeerErrorAnsweredWithZeros(t: map<S.Addr, ClientState>, addr: S.Addr, numRead: nat, body: seq<byte>, fs: Oracle)
    requires 4 <= |body| && numRead <= |body|
    requires body[1] == OpError && Decode(numRead, body).Ok? && addr in t
    ensures Serve(t, addr, numRead, body, fs) == Served(t, Some([0, 0, 0, 0]))
  {
    PeerErrorExchange(t[addr], numRead, body, fs, Decode(numRead, body).value);
    ZeroResponseBytes();
    AnsweredSettled(t, addr, t[addr], [0, 0, 0, 0]);
  }

  lemma PeerErrorExchange(c: ClientState, numRead: nat, body: seq<byte>, fs: Oracle, req: Request)
    requires 4 <= |body| && numRead <= |body|
    requires Decode(numRead, body) == Ok(req) && req.opcode == OpError
    ensures Exchange(c, true, numRead, body, fs) == Handled(c, true, None, Some(EncodeResponse(Response(OpUnknown, 0, []))))
  {
    var zero := Response(OpUnknown, 0, []);
    PeerErrorAdmitted(c, req, fs);
    ExchangeAnswered(c, true, numRead, body, fs, req, Admission(c, None, false), Answer(c, zero, None, false));
  }

  /** `handleRequest` and `handleResponse` on a peer's ERROR: nothing changes and the zero response is built. */
  lemma PeerErrorAdmitted(c: ClientState, req: Request, fs: Oracle)
    requires req.opcode == OpError
    ensures var zero := Response(OpUnknown, 0, []);
            && AfterRequest(c, true, req, fs) == Admission(c, None, false)
            && NewResponse(c.blockSize, req) == zero
            && AfterResponse(c, zero, fs) == Answer(c, zero, None, false)
  {
  }

  /** The zero response is four zero bytes. */
  lemma ZeroResponseBytes()
    ensures EncodeResponse(Response(OpUnknown, 0, [])) == [0, 0, 0, 0]
  {
  }

  /** `handleResponse` on a DATA response to a reading client whose read succeeds. */
  lemma ReadStep(u: seq<byte>, n: u16, fs: Oracle)
    requires fs.read == Done
    ensures AfterResponse(Reading(u), Response(OpData, n, Zeros(DefaultBlockSize)), fs)
            == Answer(AfterBlock(u), Response(OpData, n, X.Chunk(u)), None, u == [])
  {
    var k := |X.Chunk(u)|;
    assert Read(Open(Reader(u)), DefaultBlockSize, fs.read) == Got(u[..k], Open(Reader(u[k..])));
    assert u[..k] == X.Chunk(u);
  }

  /**
   * An ACK to a reading client whose read succeeds is answered with the
   * next block, numbered one past the ACK; the block sent when nothing was
   * left deletes the entry.
   */
  lemma AckSendsNextBlock(t: map<S.Addr, ClientState>, addr: S.Addr, n: nat, u: seq<byte>, fs: Oracle)
    requires addr in t && t[addr] == Reading(u) && fs.read == Done
    ensures Serve(t, addr, 4, X.Ack(n), fs) == Served(AfterSending(t, addr, u), Some(X.Data(n + 1, X.Chunk(u))))
  {
    var req := Request(OpAck, n % 65536, [], [], [], []);
    AckDecodes(n);
    var m := (n + 1) % 65536;
    X.NextNumber(n);
    assert NewResponse(DefaultBlockSize, req) == Response(OpData, m, Zeros(DefaultBlockSize));
    ReadStep(u, m, fs);
    ExchangeAnswered(Reading(u), true, 4, X.Ack(n), fs, req, Admission(Reading(u), None, false),
                     Answer(AfterBlock(u), Response(OpData, m, X.Chunk(u)), None, u == []));
  }

  /**
   * A new client's RRQ for a file that opens and reads gets block 1, and
   * enters the table unless that block was already the last.
   */
  lemma RrqSendsFirstBlock(t: map<S.Addr, ClientState>, addr: S.Addr, name: seq<byte>, fs: Oracle)
    requires addr !in t && 0 !in name && fs.open == Done && fs.read == Done
    ensures var p := TransferRequest(OpRrq, name, Octet);
            Serve(t, addr, |p|, p, fs) == Served(AfterSending(t, addr, fs.content), Some(X.Data(1, X.Chunk(fs.content))))
  {
    var p := TransferRequest(OpRrq, name, Octet);
    var u := fs.content;
    var req := Request(OpRrq, 0, name, Octet, [], []);
    TransferDecodes(OpRrq, name);
    RrqAdmitted(name, fs);
    ExchangeAnswered(Fresh, false, |p|, p, fs, req, Admission(Reading(u), None, true),
                     Answer(AfterBlock(u), Response(OpData, 1, X.Chunk(u)), None, u == []));
  }

  /** `handleRequest` and `handleResponse` on a new client's RRQ for a file that opens and reads. */
  lemma RrqAdmitted(name: seq<byte>, fs: Oracle)
    requires fs.open == Done && fs.read == Done
    ensures var u := fs.content;
            var req := Request(OpRrq, 0, name, Octet, [], []);
            && AfterRequest(Fresh, false, req, fs) == Admission(Reading(u), None, true)
            && NewResponse(DefaultBlockSize, req) == Response(OpData, 1, Zeros(DefaultBlockSize))
            && AfterResponse(Reading(u), Response(OpData, 1, Zeros(DefaultBlockSize)), fs)
               == Answer(AfterBlock(u), Response(OpData, 1, X.Chunk(u)), None, u == [])
  {
    var req := Request(OpRrq, 0, name, Octet, [], []);
    assert AfterRequest(Fresh, false, req, fs) == Admission(Reading(fs.content), None, true);
    ReadStep(fs.content, 1, fs);
  }

  /** A new client's WRQ for a path that does not exist is acknowledged with block 0 and enters the table. */
  lemma WrqAcknowledged(t: map<S.Addr, ClientState>, addr: S.Addr, name: seq<byte>, fs: Oracle)
    requires addr !in t && 0 !in name
    requires fs.stat == Failed(NotFound) && fs.open == Done
    ensures var p := TransferRequest(OpWrq, name, Octet);
            Serve(t, addr, |p|, p, fs) == Served(t[addr := Writing([])], Some(X.Ack(0)))
  {
    WrqExchange(name, fs);
    AckZeroBytes();
  }

  /** The ACK of block 0 is the encoded ACK response numbered 0. */
  lemma AckZeroBytes()
    ensures X.Ack(0) == EncodeResponse(Response(OpAck, 0, []))
  {
    assert Response(OpAck, 0 % 65536, []) == Response(OpAck, 0, []);
  }

  lemma WrqExchange(name: seq<byte>, fs: Oracle)
    requires 0 !in name && fs.stat == Failed(NotFound) && fs.open == Done
    ensures var p := TransferRequest(OpWrq, name, Octet);
            Exchange(Fresh, false, |p|, p, fs) == Handled(Writing([]), true, None, Some(EncodeResponse(Response(OpAck, 0, []))))
  {
    var p := TransferRequest(OpWrq, name, Octet);
    var req := Request(OpWrq, 0, name, Octet, [], []);
    var ack := Response(OpAck, 0, []);
    TransferDecodes(OpWrq, name);
    WrqAdmitted(name, fs);
    ExchangeAnswered(Fresh, false, |p|, p, fs, req, Admission(Writing([]), None, true),
                     Answer(Writing([]), ack, None, false));
  }

  /** `handleRequest` and `handleResponse` on a new client's WRQ for a path that does not exist. */
  lemma WrqAdmitted(name: seq<byte>, fs: Oracle)
    requires fs.stat == Failed(NotFound) && fs.open == Done
    ensures var req := Request(OpWrq, 0, name, Octet, [], []);
            var ack := Response(OpAck, 0, []);
            && AfterRequest(Fresh, false, req, fs) == Admission(Writing([]), None, true)
            && NewResponse(DefaultBlockSize, req) == ack
            && AfterResponse(Writing([]), ack, fs) == Answer(Writing([]), ack, None, false)
  {
    var req := Request(OpWrq, 0, name, Octet, [], []);
    assert AfterRequest(Fresh, false, req, fs) == Admission(Writing([]), None, true);
  }

  /** A DATA to a writing client is appended to the file and acknowledged with its own number. */
  lemma DataAppended(t: map<S.Addr, ClientState>, addr: S.Addr, n: nat, payload: seq<byte>, w: seq<byte>, fs: Oracle)
    requires addr in t && t[addr] == Writing(w) && fs.write == Done
    ensures var p := X.Data(n, payload);
            Serve(t, addr, |p|, p, fs) == Served(t[addr := Writing(w + payload)], Some(X.Ack(n)))
  {
    var p := X.Data(n, payload);
    var req := Request(OpData, n % 65536, [], [], [], payload);
    DataDecodes(n, payload);
    if payload == [] {
      assert w + payload == w;
    }
    assert CopyIn(Open(Writer(w)), payload, Done) == Ok(Open(Writer(w + payload)));
    var s := Admission(Writing(w + payload), None, false);
    assert AfterRequest(Writing(w), true, req, fs) == s;
    var ack := Response(OpAck, n % 65536, []);
    ExchangeAnswered(Writing(w), true, |p|, p, fs, req, s, Answer(Writing(w + payload), ack, None, false));
  }

  /** A non-empty DATA that finds the disk full is refused with code 3; the file is as it was. */
  lemma DiskFullRefused(t: map<S.Addr, ClientState>, addr: S.Addr, n: nat, payload: seq<byte>, w: seq<byte>, fs: Oracle)
    requires addr in t && t[addr] == Writing(w) && payload != [] && fs.write == Failed(NoSpace)
    ensures var p := X.Data(n, payload);
            Serve(t, addr, |p|, p, fs) == Served(t, Some(X.Refusal(DiskFull)))
  {
    var p := X.Data(n, payload);
    var req := Request(OpData, n % 65536, [], [], [], payload);
    DataDecodes(n, payload);
    var e := Tftp(NewTFTPError(DiskFull, []));
    assert AfterRequest(Writing(w), true, req, fs) == Admission(Writing(w), Some(e), false);
    ExchangeRefused(Writing(w), true, |p|, p, fs, req, Admission(Writing(w), Some(e), false));
    RefusalSettled(t, addr, e);
  }

  /**
   * A new client's RRQ for a file that opens but cannot be read (a
   * directory, say) gets "Unexpected error." under code 0, and the client
   * stays in the table with its file open: `handleRequest` put it there
   * before the read in `handleResponse` failed.
   */
  lemma RrqReadFailureKept(t: map<S.Addr, ClientState>, addr: S.Addr, name: seq<byte>, fs: Oracle)
    requires addr !in t && 0 !in name && fs.open == Done && fs.read.Failed?
    ensures var p := TransferRequest(OpRrq, name, Octet);
            Serve(t, addr, |p|, p, fs) == Served(t[addr := Reading(fs.content)], Some(X.UnexpectedPacket))
  {
    var p := TransferRequest(OpRrq, name, Octet);
    var req := Request(OpRrq, 0, name, Octet, [], []);
    var s := Admission(Reading(fs.content), None, true);
    TransferDecodes(OpRrq, name);
    assert AfterRequest(Fresh, false, req, fs) == s;
    var e := Unexpected(OsError(fs.read.err));
    ExchangeReadFailed(Fresh, false, |p|, p, fs, req, s, e);
    assert S.Reported(e) == TftpError(NotDefined, Bytes("Unexpected error."));
  }

  /**
   * An ACK to a reading client whose next read fails gets "Unexpected
   * error." under code 0, and the table is left as it was.
   */
  lemma AckReadFailureRefused(t: map<S.Addr, ClientState>, addr: S.Addr, n: nat, u: seq<byte>, fs: Oracle)
    requires addr in t && t[addr] == Reading(u) && fs.read.Failed?
    ensures Serve(t, addr, 4, X.Ack(n), fs) == Served(t, Some(X.UnexpectedPacket))
  {
    var req := Request(OpAck, n % 65536, [], [], [], []);
    var s := Admission(Reading(u), None, false);
    AckDecodes(n);
    assert AfterRequest(Reading(u), true, req, fs) == s;
    var e := Unexpected(OsError(fs.read.err));
    ExchangeReadFailed(Reading(u), true, 4, X.Ack(n), fs, req, s, e);
    assert t[addr := Reading(u)] == t;
    assert S.Reported(e) == TftpError(NotDefined, Bytes("Unexpected error."));
  }

  // ---------------------------------------------------------------------
  // Whole transfers

  /**
   * main.go's `handleConnection` for each datagram in turn, all from `addr`,
   * each read whole, the file system answering the `i`th as `fss[i]` says.
   */
  function Run(t: map<S.Addr, ClientState>, addr: S.Addr, datagrams: seq<seq<byte>>, fss: seq<Oracle>): (r: Trace)
    requires |fss| == |datagrams|
    requires forall i :: 0 <= i < |datagrams| ==> 4 <= |datagrams[i]|
    ensures |r.sent| == |datagrams|
    decreases |datagrams|
  {
    if datagrams == [] then Trace(t, [])
    else
      var s := Serve(t, addr, |datagrams[0]|, datagrams[0], fss[0]);
      var rest := Run(s.table, addr, datagrams[1..], fss[1..]);
      Trace(rest.table, [s.sent] + rest.sent)
  }

  lemma RunCons(t: map<S.Addr, ClientState>, addr: S.Addr, d: seq<byte>, ds: seq<seq<byte>>, fss: seq<Oracle>, r: Served)
    requires 4 <= |d| && forall i :: 0 <= i < |ds| ==> 4 <= |ds[i]|
    requires |fss| == 1 + |ds| && Serve(t, addr, |d|, d, fss[0]) == r
    ensures Run(t, addr, [d] + ds, fss)
            == Trace(Run(r.table, addr, ds, fss[1..]).table, [r.sent] + Run(r.table, addr, ds, fss[1..]).sent)
  {
    assert ([d] + ds)[0] == d;
    assert ([d] + ds)[1..] == ds;
  }

  /** Once the entry is gone, an ACK is refused with code 5. */
  lemma AckAfterEnd(t: map<S.Addr, ClientState>, addr: S.Addr, j: nat, fss: seq<Oracle>)
    requires addr !in t && |fss| == 1
    ensures Run(t, addr, [X.Ack(j)], fss) == Trace(t, [Some(X.Refusal(UnknownTransferId))])
  {
    AckDecodes(j);
    UnknownTransferRefused(t, addr, 4, X.Ack(j), fss[0]);
    RunCons(t, addr, X.Ack(j), [], fss, Served(t, Some(X.Refusal(UnknownTransferId))));
    assert [X.Ack(j)] + [] == [X.Ack(j)];
  }

  /** A run that starts with an ACK to a reading client whose read succeeds: the next block, then the rest. */
  lemma AckRunCons(t: map<S.Addr, ClientState>, addr: S.Addr, j: nat, u: seq<byte>, ds: seq<seq<byte>>, fss: seq<Oracle>)
    requires addr in t && t[addr] == Reading(u) && forall i :: 0 <= i < |ds| ==> 4 <= |ds[i]|
    requires |fss| == 1 + |ds| && fss[0].read == Done
    ensures var rest := Run(AfterSending(t, addr, u), addr, ds, fss[1..]);
            Run(t, addr, [X.Ack(j)] + ds, fss) == Trace(rest.table, [Some(X.Data(j + 1, X.Chunk(u)))] + rest.sent)
  {
    AckSendsNextBlock(t, addr, j, u, fss[0]);
    RunCons(t, addr, X.Ack(j), ds, fss, Served(AfterSending(t, addr, u), Some(X.Data(j + 1, X.Chunk(u)))));
  }

  /**
   * With `u` left to send and block `j` gone, the ACKs of it and of each
   * later block get the remaining blocks, every read succeeding, and the
   * ACK of the empty last block, the entry being gone, is refused with
   * code 5.
   */
  lemma {:induction false} SendingRun(t: map<S.Addr, ClientState>, addr: S.Addr, u: seq<byte>, j: nat, fss: seq<Oracle>)
    requires addr in t && t[addr] == Reading(u)
    requires |fss| == |T.Blocks(u)| + 1 && T.ReadsSucceed(fss)
    ensures Run(t, addr, T.Acks(j, |T.Blocks(u)| + 1), fss)
            == Trace(t - {addr}, T.DataSent(j + 1, T.Blocks(u)) + [Some(X.Refusal(UnknownTransferId))])
    decreases |u|, 1
  {
    if u == [] {
      LastBlockSent(t, addr, j, fss);
    } else {
      SendingStep(t, addr, u, j, fss);
    }
  }

  /** The base of `SendingRun`: the ACK of the block before the empty one gets it, and the entry goes. */
  lemma LastBlockSent(t: map<S.Addr, ClientState>, addr: S.Addr, j: nat, fss: seq<Oracle>)
    requires addr in t && t[addr] == Reading([])
    requires |fss| == |T.Blocks([])| + 1 && T.ReadsSucceed(fss)
    ensures Run(t, addr, T.Acks(j, |T.Blocks([])| + 1), fss)
            == Trace(t - {addr}, T.DataSent(j + 1, T.Blocks([])) + [Some(X.Refusal(UnknownTransferId))])
  {
    LastBlockFacts(t, addr, j);
    AckRunCons(t, addr, j, [], [X.Ack(j + 1)], fss);
    AckAfterEnd(t - {addr}, addr, j + 1, fss[1..]);
  }

  /** What `LastBlockSent` needs of the blocks, the ACKs and the table, apart from any exchange. */
  lemma LastBlockFacts(t: map<S.Addr, ClientState>, addr: S.Addr, j: nat)
    ensures |T.Blocks([])| == 1
    ensures T.Acks(j, |T.Blocks([])| + 1) == [X.Ack(j)] + [X.Ack(j + 1)]
    ensures AfterSending(t, addr, []) == t - {addr} && X.Chunk([]) == []
    ensures T.DataSent(j + 1, T.Blocks([])) + [Some(X.Refusal(UnknownTransferId))]
            == [Some(X.Data(j + 1, []))] + [Some(X.Refusal(UnknownTransferId))]
  {
    T.AcksCons(j, 2);
    assert T.Acks(j + 1, 1) == [X.Ack(j + 1)];
    assert T.DataSent(j + 1, T.Blocks([])) == [Some(X.Data(j + 1, []))];
  }

  /** The step of `SendingRun`: the ACK of block `j`, then the run of the later ones. */
  lemma {:induction false} SendingStep(t: map<S.Addr, ClientState>, addr: S.Addr, u: seq<byte>, j: nat, fss: seq<Oracle>)
    requires addr in t && t[addr] == Reading(u) && u != []
    requires |fss| == |T.Blocks(u)| + 1 && T.ReadsSucceed(fss)
    ensures Run(t, addr, T.Acks(j, |T.Blocks(u)| + 1), fss)
            == Trace(t - {addr}, T.DataSent(j + 1, T.Blocks(u)) + [Some(X.Refusal(UnknownTransferId))])
    decreases |u|, 0
  {
    var v := u[|X.Chunk(u)|..];
    var r := Some(X.Refusal(UnknownTransferId));
    SendingFacts(t, addr, u, j);
    var rest := Run(t[addr := Reading(v)], addr, T.Acks(j + 1, |T.Blocks(v)| + 1), fss[1..]);
    assert rest == Trace(t - {addr}, T.DataSent(j + 1 + 1, T.Blocks(v)) + [r]) by {
      SendingRun(t[addr := Reading(v)], addr, v, j + 1, fss[1..]);
    }
    assert Run(t, addr, T.Acks(j, |T.Blocks(u)| + 1), fss) == Trace(rest.table, [Some(X.Data(j + 1, X.Chunk(u)))] + rest.sent) by {
      AckRunCons(t, addr, j, u, T.Acks(j + 1, |T.Blocks(v)| + 1), fss);
    }
    Prepend(Run(t, addr, T.Acks(j, |T.Blocks(u)| + 1), fss), rest, Some(X.Data(j + 1, X.Chunk(u))),
            t - {addr}, T.DataSent(j + 1 + 1, T.Blocks(v)) + [r], T.DataSent(j + 1, T.Blocks(u)) + [r]);
  }

  /** A trace whose first answer is `head` and whose rest is `rest`, as one table and one list of answers. */
  lemma Prepend(whole: Trace, rest: Trace, head: Option<seq<byte>>, table: map<S.Addr, ClientState>,
                tail: seq<Option<seq<byte>>>, sent: seq<Option<seq<byte>>>)
    requires whole == Trace(rest.table, [head] + rest.sent)
    requires rest == Trace(table, tail) && sent == [head] + tail
    ensures whole == Trace(table, sent)
  {
  }

  /** What `SendingStep` needs of the blocks, the ACKs and the table, apart from any exchange. */
  lemma SendingFacts(t: map<S.Addr, ClientState>, addr: S.Addr, u: seq<byte>, j: nat)
    requires u != []
    ensures var v := u[|X.Chunk(u)|..];
            var t' := t[addr := Reading(v)];
            var r := Some(X.Refusal(UnknownTransferId));
            && |T.Blocks(u)| == |T.Blocks(v)| + 1
            && AfterSending(t, addr, u) == t'
            && t' - {addr} == t - {addr}
            && T.Acks(j, |T.Blocks(u)| + 1) == [X.Ack(j)] + T.Acks(j + 1, |T.Blocks(v)| + 1)
            && T.DataSent(j + 1, T.Blocks(u)) + [r] == [Some(X.Data(j + 1, X.Chunk(u)))] + (T.DataSent(j + 1 + 1, T.Blocks(v)) + [r])
  {
    var v := u[|X.Chunk(u)|..];
    assert T.Blocks(u)[1..] == T.Blocks(v);
    T.AcksCons(j, |T.Blocks(u)| + 1);
    T.RemoveUpdated(t, addr, Reading(v));
    T.SentFrom(u, j + 1, Some(X.Refusal(UnknownTransferId)));
  }

  /**
   * A read transfer with main.go: a new client's RRQ for a file that
   * opens, then the ACK of every block it receives, every read succeeding.
   * The blocks are those of the library server, but the entry is deleted
   * when the last block is built, so the ACK of that block is refused with
   * code 5 where the library sends nothing; the table ends as it began.
   */
  lemma ReadSession(t: map<S.Addr, ClientState>, addr: S.Addr, name: seq<byte>, fss: seq<Oracle>)
    requires addr !in t && 0 !in name
    requires 0 < |fss| && fss[0].open == Done && |fss| == 1 + |T.Blocks(fss[0].content)| && T.ReadsSucceed(fss)
    ensures var k := |T.Blocks(fss[0].content)|;
            Run(t, addr, [TransferRequest(OpRrq, name, Octet)] + T.Acks(1, k), fss)
            == Trace(t, T.DataSent(1, T.Blocks(fss[0].content)) + [Some(X.Refusal(UnknownTransferId))])
  {
    var acks := T.Acks(1, |T.Blocks(fss[0].content)|);
    RequestThenFile(t, addr, name, fss[0].content, fss, acks, [TransferRequest(OpRrq, name, Octet)] + acks);
  }

  /** `ReadSession` over the file's bytes, ACKs and datagrams named by the caller. */
  lemma RequestThenFile(t: map<S.Addr, ClientState>, addr: S.Addr, name: seq<byte>, u: seq<byte>, fss: seq<Oracle>,
                        acks: seq<seq<byte>>, ds: seq<seq<byte>>)
    requires addr !in t && 0 !in name
    requires 0 < |fss| && fss[0].open == Done && u == fss[0].content && |fss| == 1 + |T.Blocks(u)| && T.ReadsSucceed(fss)
    requires acks == T.Acks(1, |T.Blocks(u)|) && ds == [TransferRequest(OpRrq, name, Octet)] + acks
    ensures Run(t, addr, ds, fss) == Trace(t, T.DataSent(1, T.Blocks(u)) + [Some(X.Refusal(UnknownTransferId))])
  {
    var r := Some(X.Refusal(UnknownTransferId));
    var first := Some(X.Data(1, X.Chunk(u)));
    var rest := Run(AfterSending(t, addr, u), addr, acks, fss[1..]);
    assert rest == Trace(t, T.DataSent(2, T.Blocks(u)[1..]) + [r]) by {
      AfterFirstBlock(t, addr, u, fss[1..]);
    }
    assert Run(t, addr, ds, fss) == Trace(rest.table, [first] + rest.sent) by {
      T.BlocksNonEmpty(u);
      RrqRunCons(t, addr, name, acks, fss);
    }
    assert [first] + (T.DataSent(2, T.Blocks(u)[1..]) + [r]) == T.DataSent(1, T.Blocks(u)) + [r] by {
      T.SentFrom(u, 1, r);
    }
    Prepend(Run(t, addr, ds, fss), rest, first, t, T.DataSent(2, T.Blocks(u)[1..]) + [r], T.DataSent(1, T.Blocks(u)) + [r]);
  }

  /** A run that starts with a new client's RRQ for a file that opens and reads: block 1, then the rest. */
  lemma RrqRunCons(t: map<S.Addr, ClientState>, addr: S.Addr, name: seq<byte>, ds: seq<seq<byte>>, fss: seq<Oracle>)
    requires addr !in t && 0 !in name && forall i :: 0 <= i < |ds| ==> 4 <= |ds[i]|
    requires |fss| == 1 + |ds| && fss[0].open == Done && fss[0].read == Done
    ensures var u := fss[0].content;
            var rest := Run(AfterSending(t, addr, u), addr, ds, fss[1..]);
            Run(t, addr, [TransferRequest(OpRrq, name, Octet)] + ds, fss)
            == Trace(rest.table, [Some(X.Data(1, X.Chunk(u)))] + rest.sent)
  {
    var u := fss[0].content;
    RrqSendsFirstBlock(t, addr, name, fss[0]);
    RunCons(t, addr, TransferRequest(OpRrq, name, Octet), ds, fss,
            Served(AfterSending(t, addr, u), Some(X.Data(1, X.Chunk(u)))));
  }

  /** The rest of `ReadSession`, once block 1 has gone to a client that had no entry. */
  lemma AfterFirstBlock(t: map<S.Addr, ClientState>, addr: S.Addr, u: seq<byte>, fss: seq<Oracle>)
    requires addr !in t && |fss| == |T.Blocks(u)| && T.ReadsSucceed(fss)
    ensures Run(AfterSending(t, addr, u), addr, T.Acks(1, |T.Blocks(u)|), fss)
            == Trace(t, T.DataSent(2, T.Blocks(u)[1..]) + [Some(X.Refusal(UnknownTransferId))])
  {
    if u == [] {
      EmptyFileEnded(t, addr, fss);
    } else {
      FileSent(t, addr, u, fss);
    }
  }

  /** A non-empty file: the ACKs of its blocks get the others, and the ACK of the last is refused. */
  lemma FileSent(t: map<S.Addr, ClientState>, addr: S.Addr, u: seq<byte>, fss: seq<Oracle>)
    requires addr !in t && u != [] && |fss| == |T.Blocks(u)| && T.ReadsSucceed(fss)
    ensures Run(AfterSending(t, addr, u), addr, T.Acks(1, |T.Blocks(u)|), fss)
            == Trace(t, T.DataSent(2, T.Blocks(u)[1..]) + [Some(X.Refusal(UnknownTransferId))])
  {
    var v := u[|X.Chunk(u)|..];
    FileFacts(t, addr, u);
    RestSent(t, addr, v, fss, AfterSending(t, addr, u), T.Acks(1, |T.Blocks(u)|), T.DataSent(2, T.Blocks(u)[1..]));
  }

  /** `SendingRun` from block 1, for a client that had no entry, over a table, ACKs and answers named by the caller. */
  lemma RestSent(t: map<S.Addr, ClientState>, addr: S.Addr, v: seq<byte>, fss: seq<Oracle>,
                 start: map<S.Addr, ClientState>, acks: seq<seq<byte>>, sent: seq<Option<seq<byte>>>)
    requires addr !in t && |fss| == |T.Blocks(v)| + 1 && T.ReadsSucceed(fss)
    requires start == t[addr := Reading(v)] && acks == T.Acks(1, |T.Blocks(v)| + 1)
    requires sent == T.DataSent(1 + 1, T.Blocks(v))
    ensures Run(start, addr, acks, fss) == Trace(t, sent + [Some(X.Refusal(UnknownTransferId))])
  {
    assert start - {addr} == t by {
      T.RemoveUpdated(t, addr, Reading(v));
      T.RemoveAbsent(t, addr);
    }
    assert Run(start, addr, acks, fss) == Trace(start - {addr}, sent + [Some(X.Refusal(UnknownTransferId))]) by {
      SendingRun(start, addr, v, 1, fss);
    }
  }

  /** What `FileSent` needs of the blocks and the table, apart from any exchange. */
  lemma FileFacts(t: map<S.Addr, ClientState>, addr: S.Addr, u: seq<byte>)
    requires addr !in t && u != []
    ensures var v := u[|X.Chunk(u)|..];
            var t' := t[addr := Reading(v)];
            && AfterSending(t, addr, u) == t'
            && t' - {addr} == t
            && |T.Blocks(u)| == |T.Blocks(v)| + 1
            && T.Blocks(u)[1..] == T.Blocks(v)
            && T.Acks(1, |T.Blocks(u)|) == T.Acks(1, |T.Blocks(v)| + 1)
  {
    var v := u[|X.Chunk(u)|..];
    assert T.Blocks(u)[1..] == T.Blocks(v);
    T.RemoveUpdated(t, addr, Reading(v));
    T.RemoveAbsent(t, addr);
  }

  /** An empty file's only block is its last: the entry is gone before the client's ACK of it. */
  lemma EmptyFileEnded(t: map<S.Addr, ClientState>, addr: S.Addr, fss: seq<Oracle>)
    requires addr !in t && |fss| == |T.Blocks([])|
    ensures Run(AfterSending(t, addr, []), addr, T.Acks(1, |T.Blocks([])|), fss)
            == Trace(t, T.DataSent(2, T.Blocks([])[1..]) + [Some(X.Refusal(UnknownTransferId))])
  {
    assert T.Acks(1, 1) == [X.Ack(1)];
    T.RemoveAbsent(t, addr);
    AckAfterEnd(t, addr, 1, fss);
  }

  /** A writing client appends each DATA payload and acknowledges it with its number. */
  lemma {:induction false} WritingRun(t: map<S.Addr, ClientState>, addr: S.Addr, w: seq<byte>,
                                      payloads: seq<seq<byte>>, j: nat, fss: seq<Oracle>)
    requires addr in t && t[addr] == Writing(w) && |fss| == |payloads| && T.WritesSucceed(fss)
    ensures Run(t, addr, T.Datas(j, payloads), fss)
            == Trace(t[addr := Writing(w + T.Concat(payloads))], T.AckSent(j, |payloads|))
    decreases |payloads|
  {
    if payloads == [] {
      assert w + T.Concat(payloads) == w;
      assert t[addr := Writing(w)] == t;
    } else {
      var p := payloads[0];
      WritingRun(t[addr := Writing(w + p)], addr, w + p, payloads[1..], j + 1, fss[1..]);
      WritingStep(t, addr, w, payloads, j, fss);
    }
  }

  /** The step of `WritingRun`: its first DATA, given the run of the others. */
  lemma WritingStep(t: map<S.Addr, ClientState>, addr: S.Addr, w: seq<byte>, payloads: seq<seq<byte>>, j: nat,
                    fss: seq<Oracle>)
    requires addr in t && t[addr] == Writing(w) && payloads != []
    requires |fss| == |payloads| && fss[0].write == Done
    requires var t' := t[addr := Writing(w + payloads[0])];
             Run(t', addr, T.Datas(j + 1, payloads[1..]), fss[1..])
             == Trace(t'[addr := Writing(w + payloads[0] + T.Concat(payloads[1..]))], T.AckSent(j + 1, |payloads| - 1))
    ensures Run(t, addr, T.Datas(j, payloads), fss)
            == Trace(t[addr := Writing(w + T.Concat(payloads))], T.AckSent(j, |payloads|))
  {
    var p := payloads[0];
    T.DatasCons(j, payloads);
    DataRunCons(t, addr, j, p, w, T.Datas(j + 1, payloads[1..]), fss);
    WrittenInTurn(t, addr, w, payloads);
    T.AckSentCons(j, |payloads|);
  }

  /** A run that starts with DATA `j` to a writing client whose write succeeds: ACK `j`, then the rest. */
  lemma DataRunCons(t: map<S.Addr, ClientState>, addr: S.Addr, j: nat, p: seq<byte>, w: seq<byte>, ds: seq<seq<byte>>,
                    fss: seq<Oracle>)
    requires addr in t && t[addr] == Writing(w) && forall i :: 0 <= i < |ds| ==> 4 <= |ds[i]|
    requires |fss| == 1 + |ds| && fss[0].write == Done
    ensures var rest := Run(t[addr := Writing(w + p)], addr, ds, fss[1..]);
            Run(t, addr, [X.Data(j, p)] + ds, fss) == Trace(rest.table, [Some(X.Ack(j))] + rest.sent)
  {
    DataAppended(t, addr, j, p, w, fss[0]);
    RunCons(t, addr, X.Data(j, p), ds, fss, Served(t[addr := Writing(w + p)], Some(X.Ack(j))));
  }

  lemma WrittenFromEmpty(t: map<S.Addr, ClientState>, addr: S.Addr, payloads: seq<seq<byte>>)
    ensures t[addr := Writing([])][addr := Writing([] + T.Concat(payloads))] == t[addr := Writing(T.Concat(payloads))]
  {
    assert [] + T.Concat(payloads) == T.Concat(payloads);
  }

  lemma WrittenInTurn(t: map<S.Addr, ClientState>, addr: S.Addr, w: seq<byte>, payloads: seq<seq<byte>>)
    requires payloads != []
    ensures t[addr := Writing(w + payloads[0])][addr := Writing(w + payloads[0] + T.Concat(payloads[1..]))]
            == t[addr := Writing(w + T.Concat(payloads))]
  {
    assert w + payloads[0] + T.Concat(payloads[1..]) == w + T.Concat(payloads);
  }

  /**
   * A write transfer with main.go: as with the library, the WRQ gets ACK 0,
   * each DATA block its own ACK, every write succeeding, the file holds the
   * payloads in order, and the entry stays in the table.
   */
  lemma WriteSession(t: map<S.Addr, ClientState>, addr: S.Addr, name: seq<byte>, payloads: seq<seq<byte>>,
                     fss: seq<Oracle>)
    requires addr !in t && 0 !in name
    requires |fss| == 1 + |payloads| && fss[0].stat == Failed(NotFound) && fss[0].open == Done
    requires T.WritesSucceed(fss[1..])
    ensures Run(t, addr, [TransferRequest(OpWrq, name, Octet)] + T.Datas(1, payloads), fss)
            == Trace(t[addr := Writing(T.Concat(payloads))], [Some(X.Ack(0))] + T.AckSent(1, |payloads|))
  {
    var t' := t[addr := Writing([])];
    WrqRunCons(t, addr, name, T.Datas(1, payloads), fss);
    WritingRun(t', addr, [], payloads, 1, fss[1..]);
    WrittenFromEmpty(t, addr, payloads);
  }

  /** A run that starts with a new client's WRQ for a path that does not exist: ACK 0, then the rest. */
  lemma WrqRunCons(t: map<S.Addr, ClientState>, addr: S.Addr, name: seq<byte>, ds: seq<seq<byte>>, fss: seq<Oracle>)
    requires addr !in t && 0 !in name && forall i :: 0 <= i < |ds| ==> 4 <= |ds[i]|
    requires |fss| == 1 + |ds| && fss[0].stat == Failed(NotFound) && fss[0].open == Done
    ensures var rest := Run(t[addr := Writing([])], addr, ds, fss[1..]);
            Run(t, addr, [TransferRequest(OpWrq, name, Octet)] + ds, fss) == Trace(rest.table, [Some(X.Ack(0))] + rest.sent)
  {
    WrqAcknowledged(t, addr, name, fss[0]);
    RunCons(t, addr, TransferRequest(OpWrq, name, Octet), ds, fss, Served(t[addr := Writing([])], Some(X.Ack(0))));
  }

  /**
   * The same read transfer sent to both servers, the file system answering
   * both alike: every block goes out alike, and they differ only in the
   * answer to the last ACK, which the library leaves unanswered and main.go
   * refuses with code 5.
   */
  lemma ReadSessionsCompared(lib: map<S.Addr, S.ClientState>, t: map<S.Addr, ClientState>,
                             addr: S.Addr, name: seq<byte>, fss: seq<Oracle>)
    requires addr !in lib && addr !in t && 0 !in name
    requires 0 < |fss| && fss[0].open == Done && |fss| == 1 + |T.Blocks(fss[0].content)| && T.ReadsSucceed(fss)
    ensures var k := |T.Blocks(fss[0].content)|;
            var ds := [TransferRequest(OpRrq, name, Octet)] + T.Acks(1, k);
            var a := T.Run(lib, addr, ds, fss).sent;
            var b := Run(t, addr, ds, fss).sent;
            a[..k] == b[..k] && a[k] == None && b[k] == Some(X.Refusal(UnknownTransferId))
  {
    var k := |T.Blocks(fss[0].content)|;
    T.ReadSession(lib, addr, name, fss);
    ReadSession(t, addr, name, fss);
    var d := T.DataSent(1, T.Blocks(fss[0].content));
    assert (d + [None])[..k] == d;
    assert (d + [Some(X.Refusal(UnknownTransferId))])[..k] == d;
  }

  // ---------------------------------------------------------------------
  // The same transfers through the reused receive buffer

  /** When every datagram carries its whole request, main.go's loop serves them as `Run` does. */
  lemma {:induction false} ListenAsRun(t: map<S.Addr, ClientState>, addr: S.Addr, buf: seq<byte>, ds: seq<seq<byte>>,
                                       fss: seq<Oracle>)
    requires |buf| == BodyMaxSize && |fss| == |ds| && forall i :: 0 <= i < |ds| ==> Whole(ds[i])
    ensures forall i :: 0 <= i < |ds| ==> 4 <= |ds[i]|
    ensures Listen(t, buf, T.From(addr, ds, fss)) == Run(t, addr, ds, fss)
    decreases |ds|
  {
    if ds != [] {
      var d := ds[0];
      ServeReceived(t, addr, buf, d, fss[0]);
      var s := Serve(t, addr, |d|, d, fss[0]);
      ListenAsRun(s.table, addr, Receive(buf, d), ds[1..], fss[1..]);
      assert T.From(addr, ds, fss)[1..] == T.From(addr, ds[1..], fss[1..]);
    }
  }

  /** `ReadSession` through main.go's receive loop, whatever the buffer held before. */
  lemma ReadSessionInBuffer(t: map<S.Addr, ClientState>, addr: S.Addr, buf: seq<byte>, name: seq<byte>, fss: seq<Oracle>)
    requires addr !in t && 0 !in name
    requires 0 < |fss| && fss[0].open == Done && |fss| == 1 + |T.Blocks(fss[0].content)| && T.ReadsSucceed(fss)
    requires |buf| == BodyMaxSize && |TransferRequest(OpRrq, name, Octet)| <= BodyMaxSize
    ensures var k := |T.Blocks(fss[0].content)|;
            Listen(t, buf, T.From(addr, [TransferRequest(OpRrq, name, Octet)] + T.Acks(1, k), fss))
            == Trace(t, T.DataSent(1, T.Blocks(fss[0].content)) + [Some(X.Refusal(UnknownTransferId))])
  {
    var rrq := TransferRequest(OpRrq, name, Octet);
    var acks := T.Acks(1, |T.Blocks(fss[0].content)|);
    OctetHasNoNul();
    TransferRequestWhole(OpRrq, name, Octet);
    T.AcksWhole(1, |T.Blocks(fss[0].content)|);
    T.AllWhole(rrq, acks);
    ReadSession(t, addr, name, fss);
    ListenAsRun(t, addr, buf, [rrq] + acks, fss);
  }

  /** `WriteSession` through main.go's receive loop, for payloads that fit the buffer. */
  lemma WriteSessionInBuffer(t: map<S.Addr, ClientState>, addr: S.Addr, buf: seq<byte>, name: seq<byte>,
                             payloads: seq<seq<byte>>, fss: seq<Oracle>)
    requires addr !in t && 0 !in name
    requires |fss| == 1 + |payloads| && fss[0].stat == Failed(NotFound) && fss[0].open == Done
    requires T.WritesSucceed(fss[1..])
    requires |buf| == BodyMaxSize && |TransferRequest(OpWrq, name, Octet)| <= BodyMaxSize
    requires forall i :: 0 <= i < |payloads| ==> 4 + |payloads[i]| <= BodyMaxSize
    ensures Listen(t, buf, T.From(addr, [TransferRequest(OpWrq, name, Octet)] + T.Datas(1, payloads), fss))
            == Trace(t[addr := Writing(T.Concat(payloads))], [Some(X.Ack(0))] + T.AckSent(1, |payloads|))
  {
    var wrq := TransferRequest(OpWrq, name, Octet);
    OctetHasNoNul();
    TransferRequestWhole(OpWrq, name, Octet);
    T.DatasWhole(1, payloads);
    T.AllWhole(wrq, T.Datas(1, payloads));
    WriteSession(t, addr, name, payloads, fss);
    ListenAsRun(t, addr, buf, [wrq] + T.Datas(1, payloads), fss);
  }
}
