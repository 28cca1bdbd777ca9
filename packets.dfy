/**
 * The pure half of tftpd.go: opcodes and error codes, the error constructor
 * and its message table, the request decoder, the response builder and the
 * four-byte header that `sendResponse` puts in front of every packet.
 * Packet layouts follow section 5 of RFC 1350.
 */
module Packets {
  import opened Base
  import opened CStrings

  // `operation` values.
  const OpUnknown: byte := 0
  const OpRrq: byte := 1
  const OpWrq: byte := 2
  const OpData: byte := 3
  const OpAck: byte := 4
  const OpError: byte := 5

  // `errorCode` values.
  const NotDefined: u16 := 0
  const FileNotFound: u16 := 1
  const AccessViolation: u16 := 2
  const DiskFull: u16 := 3
  const IllegalOperation: u16 := 4
  const UnknownTransferId: u16 := 5
  const FileAlreadyExists: u16 := 6
  const NoSuchUser: u16 := 7

  /** The only transfer mode the server accepts. */
  const Octet: seq<byte> := Bytes("octet")

  lemma OctetHasNoNul()
    ensures 0 !in Octet
  {
    assert Ascii("octet");
    AsciiHasNoNul("octet");
  }

  /** The text of `tftpErrors[code]`; the entry for code 0 is empty. */
  function MessageText(code: u16): string
    requires code <= NoSuchUser
  {
    match code
    case 0 => ""
    case 1 => "File not found."
    case 2 => "Access violation."
    case 3 => "Disk full or allocation exceeded."
    case 4 => "Illegal TFTP operation."
    case 5 => "Unknown transfer ID."
    case 6 => "File already exists."
    case 7 => "No such user."
  }

  function Message(code: u16): seq<byte>
    requires code <= NoSuchUser
  {
    Bytes(MessageText(code))
  }

  /** `strings.Join`. */
  function Join(parts: seq<seq<byte>>, sep: seq<byte>): (r: seq<byte>)
    ensures |parts| == 1 ==> r == parts[0]
    ensures 0 !in sep && (forall i :: 0 <= i < |parts| ==> 0 !in parts[i]) ==> 0 !in r
  {
    if parts == [] then []
    else if |parts| == 1 then parts[0]
    else parts[0] + sep + Join(parts[1..], sep)
  }

  /** A `*tftpError`: a wire error code and its message. */
  datatype TftpError = TftpError(code: u16, message: seq<byte>)

  /**
   * `newTFTPError`: a code above 7 becomes 0; code 0 carries the caller's
   * strings joined by one space, every other code its fixed message.
   */
  function NewTFTPError(code: u16, clientMessage: seq<seq<byte>>): (e: TftpError)
    ensures e.code <= NoSuchUser
    ensures code <= NoSuchUser ==> e.code == code
    ensures code > NoSuchUser ==> e.code == NotDefined
    ensures e.code == NotDefined ==> e.message == Join(clientMessage, [32])
    ensures e.code != NotDefined ==> e.message == Message(e.code)
  {
    var c := if code > NoSuchUser then NotDefined else code;
    TftpError(c, if c == NotDefined then Join(clientMessage, [32]) else Message(c))
  }

  /** The class of an operating-system error, as the server tests it with `errors.Is`. */
  datatype FsError = NotFound | Permission | NoSpace | Exists | Other

  /** What lies behind an error that is not a `*tftpError`. */
  datatype Fault =
    | MalformedCString      // `readCString` found no terminator
    | ShortDatagram         // a DATA/ACK datagram shorter than its header
    | BadHandle             // a read or write on a nil, closed or read-only file
    | OsError(kind: FsError)

  /** The `error` values the handlers return. */
  datatype Error =
    | Tftp(te: TftpError)
    | EndOfSession
    | Unexpected(fault: Fault)

  datatype Result<T> = Ok(value: T) | Err(error: Error)

  /** A decoded `request`; which fields are meaningful depends on the opcode. */
  datatype Request = Request(
    opcode: byte,
    number: u16,
    filename: seq<byte>,
    mode: seq<byte>,
    errorMessage: seq<byte>,
    body: seq<byte>)

  /** `binary.BigEndian.Uint16`. */
  function BigEndian(hi: byte, lo: byte): u16
  {
    hi * 256 + lo
  }

  /** How decoding a datagram ends, before the mode error becomes a `*tftpError`. */
  datatype Parse =
    | Parsed(req: Request)
    | NoTerminator          // `readCString` failed
    | BadMode(mode: seq<byte>)
    | SliceOutOfRange       // `body[:numRead-4]` with numRead < 4: Go panics here

  /**
   * The decoding steps of `newRequest`, over the receive buffer `body` of which
   * the first `numRead` bytes came with this datagram. The opcode is `body[1]`
   * alone; C strings are scanned over the whole rest of the buffer; DATA and
   * ACK payloads are cut at `numRead`.
   */
  function ParseRequest(numRead: nat, body: seq<byte>): (p: Parse)
    requires 4 <= |body| && numRead <= |body|
    ensures p.Parsed? ==> p.req.opcode == body[1]
    ensures p.Parsed? && body[1] in {OpRrq, OpWrq} ==> p.req.mode == Octet
    ensures p.BadMode? ==> body[1] in {OpRrq, OpWrq} && p.mode != Octet
    ensures p.SliceOutOfRange? <==> body[1] in {OpData, OpAck} && numRead < 4
    ensures p.Parsed? && body[1] in {OpData, OpAck} ==>
              p.req.number == BigEndian(body[2], body[3]) && p.req.body == body[4..numRead]
  {
    var op := body[1];
    var rest := body[2..];
    if op == OpRrq || op == OpWrq then
      match DecodeCString(rest)
      case None => NoTerminator
      case Some(f) =>
        var afterName := rest[f.n..];
        match DecodeCString(afterName)
        case None => NoTerminator
        case Some(m) =>
          if m.s != Octet then BadMode(m.s)
          else Parsed(Request(op, 0, f.s, m.s, [], afterName[m.n..]))
    else if op == OpData || op == OpAck then
      if numRead < 4 then SliceOutOfRange
      else Parsed(Request(op, BigEndian(body[2], body[3]), [], [], [], body[4..numRead]))
    else if op == OpError then
      match DecodeCString(body[4..])
      case None => NoTerminator
      case Some(e) => Parsed(Request(op, BigEndian(body[2], body[3]), [], [], e.s, body[4..][e.n..]))
    else
      Parsed(Request(op, 0, [], [], [], rest))
  }

  /** The text of the mode error before and after its `%v`. */
  const ModePrefix: string := "Incorrect mode '"
  const ModeSuffix: string := "'. This server supports only 'octet' mode."

  /** The message of the mode error, formatted with `fmt.Sprintf`. */
  function ModeMessage(mode: seq<byte>): seq<byte>
  {
    Bytes(ModePrefix) + mode + Bytes(ModeSuffix)
  }

  /**
   * `newRequest` of the library server. A short DATA/ACK datagram is answered
   * with an error here, where the code as written panics (see ParseRequest).
   */
  function NewRequest(numRead: nat, body: seq<byte>): (r: Result<Request>)
    requires 4 <= |body| && numRead <= |body|
    ensures r.Ok? <==> ParseRequest(numRead, body).Parsed?
    ensures r.Ok? ==> r.value == ParseRequest(numRead, body).req
    ensures ParseRequest(numRead, body).BadMode? ==>
              r == Err(Tftp(TftpError(NotDefined, ModeMessage(ParseRequest(numRead, body).mode))))
  {
    var p := ParseRequest(numRead, body);
    match p
    case Parsed(req) => Ok(req)
    case NoTerminator => Err(Unexpected(MalformedCString))
    case BadMode(m) =>
      var e := NewTFTPError(NotDefined, [ModeMessage(m)]);
      assert e.message == ModeMessage(m);
      Err(Tftp(e))
    case SliceOutOfRange => Err(Unexpected(ShortDatagram))
  }

  /** A `response`: DATA, ACK, ERROR, or the all-zero value. */
  datatype Response = Response(opcode: byte, number: u16, body: seq<byte>)

  /** `make([]byte, n)`. */
  function Zeros(n: nat): (z: seq<byte>)
    ensures |z| == n && forall i :: 0 <= i < n ==> z[i] == 0
  {
    seq(n, _ => 0)
  }

  /**
   * `newResponse`: RRQ and ACK are answered by DATA numbered one past the
   * request's number (mod 2^16) with a block-sized buffer to read into; WRQ
   * and DATA by an ACK with the request's number; anything else by the zero
   * response.
   */
  function NewResponse(blockSize: nat, req: Request): (r: Response)
    ensures req.opcode in {OpRrq, OpAck} ==>
              r.opcode == OpData && |r.body| == blockSize && forall i :: 0 <= i < blockSize ==> r.body[i] == 0
    ensures req.opcode in {OpRrq, OpAck} && req.number < 65535 ==> r.number == req.number + 1
    ensures req.opcode in {OpRrq, OpAck} && req.number == 65535 ==> r.number == 0
    ensures req.opcode in {OpWrq, OpData} ==> r.opcode == OpAck && r.number == req.number && r.body == []
    ensures req.opcode !in {OpRrq, OpWrq, OpData, OpAck} ==> r.opcode == OpUnknown && r.number == 0 && r.body == []
  {
    if req.opcode == OpRrq || req.opcode == OpAck then
      Response(OpData, (req.number + 1) % 65536, Zeros(blockSize))
    else if req.opcode == OpWrq || req.opcode == OpData then
      Response(OpAck, req.number, [])
    else
      Response(OpUnknown, 0, [])
  }

  /** The bytes `sendResponse` writes: `[0, opcode, hi(number), lo(number)] ++ body`. */
  function EncodeResponse(resp: Response): (p: seq<byte>)
    ensures |p| == 4 + |resp.body|
    ensures p[0] == 0 && p[1] == resp.opcode
    ensures BigEndian(p[2], p[3]) == resp.number && p[4..] == resp.body
  {
    [0, resp.opcode, resp.number / 256, resp.number % 256] + resp.body
  }

  /** The bytes `sendError` writes for an error. */
  function ErrorPacket(e: TftpError): (p: seq<byte>)
    ensures |p| == 5 + |e.message| && p[0] == 0 && p[1] == OpError
    ensures BigEndian(p[2], p[3]) == e.code && p[4..] == ToCString(e.message)
  {
    EncodeResponse(Response(OpError, e.code, ToCString(e.message)))
  }

  // ---------------------------------------------------------------------
  // Properties of the decoder and the encoder

  /** Only the low byte of the opcode field is read. */
  lemma OpcodeHighByteIgnored(numRead: nat, body: seq<byte>, x: byte)
    requires 4 <= |body| && numRead <= |body|
    ensures ParseRequest(numRead, body[0 := x]) == ParseRequest(numRead, body)
  {
    var b := body[0 := x];
    assert b[1] == body[1] && b[2] == body[2] && b[3] == body[3];
    assert b[2..] == body[2..] && b[4..] == body[4..];
    if 4 <= numRead { assert b[4..numRead] == body[4..numRead]; }
  }

  /**
   * A DATA or ACK packet as `sendResponse` builds it decodes to the same
   * opcode, number and payload when `numRead` is its length, whatever stale
   * bytes follow it in the buffer.
   */
  lemma DataAckRoundTrip(resp: Response, stale: seq<byte>)
    requires resp.opcode in {OpData, OpAck}
    ensures ParseRequest(4 + |resp.body|, EncodeResponse(resp) + stale)
            == Parsed(Request(resp.opcode, resp.number, [], [], [], resp.body))
  {
    var p := EncodeResponse(resp) + stale;
    assert p[..4 + |resp.body|] == EncodeResponse(resp);
    assert p[4..4 + |resp.body|] == resp.body;
  }

  /** An ERROR packet as `sendError` builds it decodes to its code and message. */
  lemma ErrorRoundTrip(e: TftpError, stale: seq<byte>, numRead: nat)
    requires 0 !in e.message
    requires numRead <= |ErrorPacket(e)| + |stale|
    ensures ParseRequest(numRead, ErrorPacket(e) + stale)
            == Parsed(Request(OpError, e.code, [], [], e.message, stale))
  {
    var p := ErrorPacket(e) + stale;
    assert p[..4] == EncodeResponse(Response(OpError, e.code, ToCString(e.message)))[..4];
    assert p[4..] == ToCString(e.message) + stale;
    TrailingBytesIgnored(e.message, stale);
    assert p[4..][|e.message| + 1..] == stale;
  }

  /** The RRQ/WRQ packet for a filename and a mode. */
  function TransferRequest(op: byte, filename: seq<byte>, mode: seq<byte>): seq<byte>
  {
    [0, op] + ToCString(filename) + ToCString(mode)
  }

  /**
   * An RRQ/WRQ decodes to its filename and mode when the mode is exactly
   * "octet", and to the mode error otherwise, for any `numRead`.
   */
  lemma TransferRequestRoundTrip(op: byte, filename: seq<byte>, mode: seq<byte>, stale: seq<byte>, numRead: nat)
    requires op in {OpRrq, OpWrq} && 0 !in filename && 0 !in mode
    requires numRead <= |TransferRequest(op, filename, mode)| + |stale|
    ensures ParseRequest(numRead, TransferRequest(op, filename, mode) + stale)
            == if mode == Octet then Parsed(Request(op, 0, filename, mode, [], stale)) else BadMode(mode)
  {
    var p := TransferRequest(op, filename, mode) + stale;
    assert p[2..] == ToCString(filename) + (ToCString(mode) + stale);
    TrailingBytesIgnored(filename, ToCString(mode) + stale);
    assert p[2..][|filename| + 1..] == ToCString(mode) + stale;
    TrailingBytesIgnored(mode, stale);
    assert (ToCString(mode) + stale)[|mode| + 1..] == stale;
  }

  /** An RRQ/WRQ with no NUL after its opcode, or none after its filename, is refused. */
  lemma MissingTerminatorRefused(op: byte, filename: seq<byte>, tail: seq<byte>, numRead: nat)
    requires op in {OpRrq, OpWrq} && 0 !in filename && 0 !in tail
    requires 2 <= |filename| + |tail| && numRead <= 2 + |filename| + |tail|
    ensures ParseRequest(numRead, [0, op] + filename + tail) == NoTerminator
    ensures ParseRequest(numRead, [0, op] + ToCString(filename) + tail) == NoTerminator
  {
    var p := [0, op] + filename + tail;
    assert p[2..] == filename + tail;
    var q := [0, op] + ToCString(filename) + tail;
    assert q[2..] == ToCString(filename) + tail;
    TrailingBytesIgnored(filename, tail);
    assert q[2..][|filename| + 1..] == tail;
  }

  /** A mode that differs from "octet" in any way, "OCTET" included, is an error with code 0. */
  lemma OnlyOctetAccepted(numRead: nat, body: seq<byte>)
    requires 4 <= |body| && numRead <= |body|
    requires body[1] in {OpRrq, OpWrq}
    ensures NewRequest(numRead, body).Ok? ==> NewRequest(numRead, body).value.mode == Octet
    ensures ParseRequest(numRead, body).BadMode? ==>
              NewRequest(numRead, body).Err? && NewRequest(numRead, body).error.te.code == NotDefined
  {
  }

  /** The DATA sent for an RRQ (number 0) is block 1; after block 65535 comes block 0. */
  lemma ResponseNumbering(blockSize: nat, req: Request)
    ensures req.opcode == OpRrq && req.number == 0 ==> NewResponse(blockSize, req).number == 1
    ensures req.opcode == OpAck && req.number == 65535 ==> NewResponse(blockSize, req).number == 0
    ensures req.opcode in {OpWrq, OpData} ==> NewResponse(blockSize, req) == Response(OpAck, req.number, [])
    ensures req.opcode in {OpRrq, OpAck} ==>
              NewResponse(blockSize, req).opcode == OpData && |NewResponse(blockSize, req).body| == blockSize
    ensures req.opcode !in {OpRrq, OpWrq, OpData, OpAck} ==>
              EncodeResponse(NewResponse(blockSize, req)) == [0, 0, 0, 0]
  {
  }

  // ---------------------------------------------------------------------
  // The receive buffer

  /** The size of the one buffer the server allocates before its loop and reuses for every datagram. */
  const BodyMaxSize: nat := 2048

  /** `ReadFrom`'s count: a datagram longer than the buffer is cut to the buffer's size. */
  function Received(d: seq<byte>): (n: nat)
    ensures n <= |d| && n <= BodyMaxSize
    ensures n == |d| || n == BodyMaxSize
  {
    if |d| < BodyMaxSize then |d| else BodyMaxSize
  }

  /**
   * The buffer after `ReadFrom`: the datagram's bytes over its head; what the
   * earlier datagrams left stays after them.
   */
  function Receive(buf: seq<byte>, d: seq<byte>): (b: seq<byte>)
    requires |buf| == BodyMaxSize
    ensures |b| == BodyMaxSize
    ensures b[..Received(d)] == d[..Received(d)] && b[Received(d)..] == buf[Received(d)..]
  {
    d[..Received(d)] + buf[Received(d)..]
  }

  /** A datagram that fits is followed in the buffer by the stale bytes of earlier ones. */
  lemma ReceiveFits(buf: seq<byte>, d: seq<byte>)
    requires |buf| == BodyMaxSize && |d| <= BodyMaxSize
    ensures Received(d) == |d| && Receive(buf, d) == d + buf[|d|..]
  {
    assert d[..|d|] == d;
  }

  /**
   * What of a decoding the handlers depend on: all of it, except the part of
   * the buffer after the strings of anything but a DATA packet, which no
   * handler reads.
   */
  function Meaning(p: Parse): (m: Parse)
    ensures m.Parsed? <==> p.Parsed?
    ensures p.Parsed? ==> m.req == p.req.(body := if p.req.opcode == OpData then p.req.body else [])
    ensures !p.Parsed? ==> m == p
  {
    if p.Parsed? && p.req.opcode != OpData then Parsed(p.req.(body := [])) else p
  }

  /**
   * A datagram that carries its whole request: it fits the buffer, and
   * whatever stale bytes follow it, it decodes to the same meaning.
   */
  ghost predicate Whole(d: seq<byte>)
  {
    4 <= |d| <= BodyMaxSize && forall stale: seq<byte> :: StaleIgnored(d, stale)
  }

  /** `stale` after `d` in the buffer does not change what `d` decodes to. */
  ghost predicate StaleIgnored(d: seq<byte>, stale: seq<byte>)
    requires 4 <= |d|
  {
    Meaning(ParseRequest(|d|, d + stale)) == Meaning(ParseRequest(|d|, d))
  }

  /** An RRQ/WRQ that fits the buffer carries its whole request. */
  lemma TransferRequestWhole(op: byte, filename: seq<byte>, mode: seq<byte>)
    requires op in {OpRrq, OpWrq} && 0 !in filename && 0 !in mode
    requires |TransferRequest(op, filename, mode)| <= BodyMaxSize
    ensures Whole(TransferRequest(op, filename, mode))
  {
    var d := TransferRequest(op, filename, mode);
    assert d + [] == d;
    TransferRequestRoundTrip(op, filename, mode, [], |d|);
    forall stale: seq<byte>
      ensures StaleIgnored(d, stale)
    {
      TransferRequestRoundTrip(op, filename, mode, stale, |d|);
    }
  }

  /** A DATA or ACK packet that fits the buffer carries its whole request. */
  lemma DataAckWhole(resp: Response)
    requires resp.opcode in {OpData, OpAck} && 4 + |resp.body| <= BodyMaxSize
    ensures Whole(EncodeResponse(resp))
  {
    var d := EncodeResponse(resp);
    assert d + [] == d;
    DataAckRoundTrip(resp, []);
    forall stale: seq<byte>
      ensures StaleIgnored(d, stale)
    {
      DataAckRoundTrip(resp, stale);
    }
  }

  /**
   * A request cut short (at least its opcode arrived) after a request with
   * the same filename and mode decodes as if it had come whole: the rest of
   * its strings is read from what the earlier one left in the buffer.
   */
  lemma CutRequestCompleted(buf: seq<byte>, op: byte, op': byte, filename: seq<byte>, mode: seq<byte>, k: nat)
    requires |buf| == BodyMaxSize
    requires op in {OpRrq, OpWrq} && op' in {OpRrq, OpWrq} && 0 !in filename && 0 !in mode
    requires |TransferRequest(op, filename, mode)| <= BodyMaxSize
    requires 2 <= k <= |TransferRequest(op', filename, mode)|
    ensures var b := Receive(Receive(buf, TransferRequest(op, filename, mode)), TransferRequest(op', filename, mode)[..k]);
            ParseRequest(k, b) == ParseRequest(k, TransferRequest(op', filename, mode) + buf[|TransferRequest(op, filename, mode)|..])
  {
    var first := TransferRequest(op, filename, mode);
    var second := TransferRequest(op', filename, mode);
    var cut := second[..k];
    ReceiveFits(buf, first);
    var b1 := Receive(buf, first);
    ReceiveFits(b1, cut);
    var b := Receive(b1, cut);
    assert |first| == |second|;
    assert b == second + buf[|first|..] by {
      assert b == cut + (first + buf[|first|..])[k..];
      assert first[2..] == second[2..];
      forall i | 0 <= i < |b|
        ensures b[i] == (second + buf[|first|..])[i]
      {
        if i < k {
        } else if i < |first| {
          assert b[i] == first[i];
        }
      }
    }
  }

  /** The counterexample of the decoder as written: a two-byte ACK reaches the out-of-range slice. */
  lemma ShortAckReachesBadSlice()
    ensures ParseRequest(2, [0, OpAck, 0, 0]) == SliceOutOfRange
    ensures NewRequest(2, [0, OpAck, 0, 0]) == Err(Unexpected(ShortDatagram))
  {
  }
}
