# go-tftpd in Dafny

A model of go-tftpd, a small TFTP server (RFC 1350, octet mode only), and
proofs about it. Three parts are modelled:

- the NUL-terminated string codec of `util.go` (`toCString`, `readCString`);
- the library server of `tftpd.go`:
  - the packet decoder `newRequest`;
  - the response builder `newResponse` and the header `sendResponse` writes;
  - the error constructor `newTFTPError` and its message table;
  - the per-address session machine `handleConnection`, `handleRequest`,
    `handleResponse`, `handleError` and `prepareFromRequest` over the
    `connections` table;
- the older standalone server of `main.go`, whose session lifecycle differs.

Modules:

| file | module | what it holds |
|---|---|---|
| base.dfy | `Base` | `byte`, `u16`, `Option`, ASCII constants as bytes |
| cstrings.dfy | `CStrings` | `toCString`, `readCString` (as a function and as the loop) |
| packets.dfy | `Packets` | opcodes, error codes, `newTFTPError`, `newRequest`, `newResponse`, the encoded header |
| files.dfy | `Files` | the file calls over an abstract file and an outcome oracle |
| session.dfy | `Session` | the library's client and server as classes, proved against value functions |
| exchanges.dfy | `Exchanges` | what one datagram does to the library's table and what it sends back |
| transfers.dfy | `Transfers` | whole read and write transfers with the library server |
| legacy.dfy | `Legacy` | main.go's lifecycle, as value functions and as classes |
| legacy_transfers.dfy | `LegacyTransfers` | main.go's answers to one datagram and to whole transfers, and where the two servers differ |

How the model is built:

- A datagram is `(numRead, body)`. `body` is the whole receive buffer and
  `numRead` is the number of bytes that arrived. C strings are scanned over
  the whole rest of the buffer, as the code does.
- Both servers read every datagram into one 2048-byte buffer that is
  allocated once. A datagram overwrites only the head of the buffer, so the
  bytes of earlier datagrams stay after it.
  - `Listen` and the `ListenAndServe` methods model that loop.
  - A request cut short can have its strings completed from those stale
    bytes, as `Packets.CutRequestCompleted` shows.
  - A datagram that carries its whole request is served the same whatever
    follows it (`ServeReceived`). So whole transfers are stated once over
    datagrams that each get their own buffer (`Run`), and `ListenAsRun`
    carries them over to the real loop.
- The file system answers through an `Oracle`. Each datagram that arrives
  (an `Arrival`, and each datagram of `Run`) carries its own, so the file
  system can answer differently from one datagram to the next. An oracle gives:
  - the outcome of `os.Stat` on the path;
  - the outcome of `os.Open` or `os.Create`;
  - the contents of the file an RRQ opens;
  - the outcome of reading the next block (a directory opens but fails to read, say);
  - the outcome of writing a DATA payload.
- Error kinds are NotFound, Permission, NoSpace, Exists and Other.
- An open file is either the part not yet read (`Reader`) or what has been
  appended so far (`Writer`).
- The handlers' `error` results form a datatype with three kinds:
  - a `*tftpError`;
  - the `endOfSession` sentinel;
  - a non-TFTP error.
- Each server is a `Server` class whose `connections` map holds `Client`
  objects.
  - `HandleConnection` is proved to change the table, and to send, exactly
    what the value function `Serve` says.
  - The lemmas about `Serve` then state what the server promises.
- Block numbers are `u16` and wrap modulo 65536.

A 1000-byte file might be expected to go out as two blocks. The code sends
three: 512 bytes, 488 bytes, then an empty block. `bytesLeft` is checked
before the read, so only a read made when no bytes
were left marks the last packet. The model follows the code, and
`Transfers.BlocksCount`, `Transfers.BlocksShape` and `Transfers.ThousandBytes` state this.

main.go repeats several pieces of tftpd.go and util.go almost word for word:

- `toCString`, `readCString`;
- `newRequest`, `newResponse`, `newTFTPError`, `tftpErrors`;
- `sendResponse`, `sendError`;
- `prepareFromRequest`, which differs only in not setting `inited`.

These are modelled once. The mode error is the exception:

- `main.go` passes the format string itself to `newTFTPError`, followed by
  the mode.
- So its message is the unformatted template, a space and the mode.
- `Legacy.Decode` models that message.

## Model

| member | source | states |
|---|---|---|
| CStrings.ToCString | util.go:5-7 | the result is the string followed by exactly one 0 byte, so it is one byte longer |
| CStrings.FirstZero | util.go:10-12 | the scan stops at the first NUL: every byte before it is non-zero |
| CStrings.DecodeCString | util.go:9-19 | fails exactly when there is no 0 byte; otherwise n = index of the first 0 plus 1, 1 <= n <= len(src), and the string is the bytes before it and holds no 0 |
| CStrings.ReadCString | util.go:9-19 | the index loop returns what `DecodeCString` specifies, and `(0, "")` with an error when there is no terminator |
| CStrings.TrailingBytesIgnored | util.go:11-18 | decoding `toCString(s) ++ rest` gives `(len(s)+1, s)` whatever `rest` is |
| CStrings.RoundTrip | tftpd_test.go:25-38 | `readCString(toCString(s)) == (len(s)+1, s)` for every NUL-free `s`, including `""` |
| CStrings.TruncatedFails | tftpd_test.go:39-43 | a C string whose terminator was cut off does not decode |
| CStrings.HelloEncodes | tftpd_test.go:12-23 | `toCString("hello world!")` is the test's 13-byte vector |
| CStrings.HelloDecodes | tftpd_test.go:25-43 | the test's vector decodes back to `(13, "hello world!")`, and without its last byte it is refused |
| CStrings.EmptyVector | tftpd_test.go:13-38 | `""` encodes as `[0]`, and `[0]` decodes to `(1, "")` |
| Packets.Join | tftpd.go:331 | `strings.Join` of one part is that part, and parts and separator without NUL give a result without NUL |
| Packets.NewTFTPError | tftpd.go:324-338 | a code above 7 becomes 0; code 0 carries the caller's strings joined by one space; codes 1..7 carry the fixed message of the table at tftpd.go:357-366 |
| Packets.ParseRequest | tftpd.go:250-294 | the opcode is `body[1]`; RRQ/WRQ with a mode other than exactly "octet" is refused; DATA/ACK number is the big-endian bytes 2..3 and the payload is `body[4:numRead]`; a DATA/ACK with `numRead < 4` reaches the slice that panics |
| Packets.NewRequest | tftpd.go:250-294 | decodes exactly the datagrams `ParseRequest` parses; the mode error is code 0 with the formatted message; the short DATA/ACK becomes an error (corrected) |
| Packets.Zeros | tftpd.go:307 | `make([]byte, n)`: n zero bytes |
| Packets.EncodeResponse | tftpd.go:177-181 | the packet is `[0, opcode, hi(number), lo(number)] ++ body` |
| Packets.OpcodeHighByteIgnored | tftpd.go:260-261 | changing `body[0]` never changes the decoded request |
| Packets.DataAckRoundTrip | tftpd.go:177-181 | a DATA/ACK packet the server builds decodes to the same opcode, number and payload, with any stale bytes after it in the buffer |
| Packets.ErrorRoundTrip | tftpd.go:172-175 | an ERROR packet the server builds decodes to its code and message |
| Packets.TransferRequestRoundTrip | tftpd.go:263-278 | an RRQ/WRQ decodes to its filename and mode if the mode is exactly "octet", and to the mode error otherwise |
| Packets.MissingTerminatorRefused | tftpd.go:264-273 | an RRQ/WRQ missing the NUL after its filename or after its mode is a decode error |
| Packets.OnlyOctetAccepted | tftpd.go:274-276 | every accepted RRQ/WRQ has mode "octet"; any other mode is an error with code 0 |
| Packets.NewResponse | tftpd.go:302-317 | RRQ/ACK give DATA with a zeroed block-sized body numbered one past the request, 65535 wrapping to 0; WRQ/DATA give an ACK with the same number and no body; any other opcode gives opcode 0, number 0, no body |
| Packets.ErrorPacket | tftpd.go:172-181 | the ERROR packet is `[0, 5]`, the code big-endian, then the message as a C string, so it is 5 bytes longer than the message |
| Packets.Received | tftpd.go:46 | `ReadFrom` reports the datagram's length, cut to the 2048-byte buffer |
| Packets.Receive | tftpd.go:42-51 | after a read the buffer still has 2048 bytes: the datagram's bytes at its head and the earlier contents after them |
| Packets.ReceiveFits | tftpd.go:44-46 | a datagram that fits is followed in the buffer by the stale bytes of earlier datagrams |
| Packets.TransferRequestWhole | tftpd.go:263-278 | an RRQ/WRQ that fits the buffer decodes the same whatever stale bytes follow it |
| Packets.DataAckWhole | tftpd.go:280-282 | a DATA/ACK that fits the buffer decodes the same whatever stale bytes follow it |
| Packets.CutRequestCompleted | tftpd.go:43-51 | an RRQ/WRQ cut short after a request with the same filename and mode decodes as the complete request, its strings read from the stale bytes |
| Packets.ResponseNumbering | tftpd.go:302-317 | RRQ gives DATA 1, ACK 65535 gives DATA 0, RRQ/ACK give DATA with a block-sized buffer, WRQ/DATA give an ACK with the same number, other opcodes give `[0,0,0,0]` |
| Packets.ShortAckReachesBadSlice | tftpd.go:280-282 | the two-byte ACK `[0,4]` reaches `body[:numRead-4]` with a negative bound as written; the corrected decoder returns an error |
| Files.OpenError | tftpd.go:213-222 | not-found, permission and no-space become codes 1, 2 and 3; any other error passes through as a non-TFTP error |
| Files.OpenFor | tftpd.go:205-229 | an RRQ opens the file for reading with its size; a WRQ is refused with code 6 unless stat reports not-exist, and otherwise creates an empty file |
| Files.Read | tftpd.go:141-144 | a read fails exactly when the file is not open or the file system reports an error, and then carries that error; otherwise, on a file open for reading, it returns `min(size, unread)` bytes and advances the cursor by them; a created file reads nothing and is left as it was |
| Files.CopyIn | tftpd.go:126-133 | an empty payload writes nothing; otherwise the payload is appended, a full disk gives code 3, any other write failure passes through as a non-TFTP error, and a file not open for writing fails |
| Session.Prepare | tftpd.go:198-236 | fails exactly when opening the file fails, with the mapped error, and the client is then unchanged; on success the client is inited, the block size is 512 and `bytesLeft` is the file size (0 and an empty file for a WRQ) |
| Session.AfterRequest | tftpd.go:89-137 | an illegal opcode gives code 4 with the client unchanged; the end of a session comes exactly from an ACK to an inited client with `lastPkt`; a client not inited sending DATA, ACK or ERROR gets an error and is unchanged; success leaves the client inited; `lastPkt` is never changed, and an inited client changes only in its file |
| Session.AfterError | tftpd.go:157-164 | `handleError` sets `inited` and `lastPkt` and changes nothing else |
| Session.AfterResponse | tftpd.go:139-155 | a DATA response whose read fails returns that error with the client unchanged, and only then is there an error; otherwise the body is cut to the bytes read, `bytesLeft` drops by that many, and `lastPkt` becomes set exactly when `bytesLeft <= 0` before the read |
| Session.Exchange | tftpd.go:63-82 | something is sent exactly when there was no error; the end of a session comes only from an ACK to an inited client with `lastPkt`; what is sent is a DATA, an ACK or the zero response |
| Session.Serve | tftpd.go:56-87 | a datagram changes no entry but its own address's, and that entry exists afterwards exactly when something was sent |
| Session.ExchangeSameMeaning | tftpd.go:63-82 | two buffers that decode to the same request, apart from the unread bytes after a non-DATA request, are handled alike |
| Session.AfterRequestIgnoresBody | tftpd.go:89-137 | `handleRequest` reads the payload of a DATA request alone |
| Session.ServeReceived | tftpd.go:43-51 | a datagram that carries its whole request is served the same from the reused buffer as on its own |
| Session.Listen | tftpd.go:41-54 | the receive loop over one reused buffer, each arrival with its own file-system answers, gives one answer per datagram |
| Session.ServeTouchesOnlyItsAddress | tftpd.go:56-87 | a datagram changes only its own address's entry; that entry exists afterwards exactly when something was sent; nothing is sent only for the ACK that ends a session |
| Session.SettleOverwrites | tftpd.go:84-85 | the end of `handleConnection` overwrites or deletes the entry, whatever it held |
| Session.Client.constructor | tftpd.go:192-196 | `newClient` has the given address and every other field zero |
| Session.Client.PrepareFromRequest | tftpd.go:198-236 | updates the client's fields as `Prepare` specifies |
| Session.Server.constructor | tftpd.go:22-32 | the table starts empty |
| Session.Server.HandleRequest | tftpd.go:89-137 | the gates in order: illegal opcode, last ACK (deleting the entry), unknown client, prepare, peer ERROR, DATA append |
| Session.Server.HandleResponse | tftpd.go:139-155 | the client's new state and the response sent are those of `AfterResponse` |
| Session.Server.HandleError | tftpd.go:157-175 | sets `inited` and `lastPkt`; sends the error, a non-TFTP error as code 0 "Unexpected error." |
| Session.Server.Process | tftpd.go:63-82 | the function literal leaves the client and the table as `Exchange` says; only the end of a session deletes the entry |
| Session.Server.ClientFor | tftpd.go:57-61 | an unknown address gets a fresh client inserted before the datagram is handled |
| Session.Server.Reject | tftpd.go:84-85 | `handleError` changes only its own client's entry |
| Session.Server.Dispatch | tftpd.go:63-86 | after the client is in the table, the table and the packet sent are those `Settle` gives |
| Session.Server.HandleConnection | tftpd.go:56-87 | the table after one datagram and the packet sent are those of `Serve` |
| Session.Server.ReadFrom | tftpd.go:46 | the read writes the datagram over the head of the buffer as `Receive` says, returns `Received` bytes, and leaves the table alone |
| Session.Server.ServeNext | tftpd.go:46-52 | one turn of the loop: the answer is the first of `Listen`'s, and the rest of `Listen` goes on from the new table and buffer |
| Session.Server.ListenAndServe | tftpd.go:41-54 | over a buffer allocated zeroed once, the table afterwards and the answers sent are those of `Listen` |
| Exchanges.IllegalOpcodeRefused | tftpd.go:95-97 | an opcode outside 1..5 gets code 4 in any session state, and the client is then marked as after an error |
| Exchanges.UnknownTransferRefused | tftpd.go:106-108 | DATA, ACK or ERROR from a client that is not inited gets code 5 |
| Exchanges.LastAckEndsSession | tftpd.go:99-103 | an ACK to an inited client with `lastPkt` deletes its entry and nothing is sent |
| Exchanges.UndecodableAnswered | tftpd.go:63-67 | a datagram that does not decode is answered with code 0 "Unexpected error." |
| Exchanges.ShortAckAnswered | tftpd.go:280-282 | with the corrected decoder a two-byte ACK is answered, not a crash |
| Exchanges.PeerErrorAnsweredWithZeros | tftpd.go:119-123 | an ERROR from an inited client is answered with four zero bytes and changes nothing |
| Exchanges.ErrorSentThenAckEnds | tftpd.go:157-164 | after any ERROR the server sends, the client's next ACK deletes its entry and gets no answer |
| Exchanges.ExchangeReadFailed | tftpd.go:63-82 | when `handleResponse` fails, the error goes to `handleError` with the client as `handleRequest` left it, and nothing else is sent |
| Exchanges.RrqReadFailureAnswered | tftpd.go:139-144 | a new client's RRQ for a file that opens but does not read (a directory, say) gets code 0 "Unexpected error."; the client stays in the table with its file open, marked so that its next ACK ends it |
| Exchanges.AckReadFailureAnswered | tftpd.go:139-144 | an ACK to a reading client whose next read fails gets code 0 "Unexpected error.", and the client is marked so that its next ACK ends it |
| Exchanges.Chunk | tftpd.go:141 | one block is at most 512 bytes, a prefix of what is left |
| Exchanges.ReadStep | tftpd.go:139-155 | a read cuts the next block off the unread part; the block read when nothing is left closes the file |
| Exchanges.AckSendsNextBlock | tftpd.go:302-309 | an ACK n to a reading client gets DATA n+1 (mod 2^16) with the next block |
| Exchanges.AckDecodes | tftpd.go:280-282 | an ACK packet decodes to its block number mod 2^16 |
| Exchanges.DataDecodes | tftpd.go:280-282 | a DATA packet decodes to its number and payload |
| Exchanges.AckToReader | tftpd.go:89-137 | `handleRequest` lets an ACK to a reading client through unchanged |
| Exchanges.RrqSendsFirstBlock | tftpd.go:205-206 | a new client's RRQ for a file that opens gets DATA 1 with the first block |
| Exchanges.RrqOpenFailureRefused | tftpd.go:213-222 | an RRQ for a file that does not open gets the mapped error code |
| Exchanges.WrqAcknowledged | tftpd.go:207-212 | a WRQ for a missing path is acknowledged with ACK 0 and the client starts an empty file |
| Exchanges.WrqOverExistingRefused | tftpd.go:208-210 | a WRQ for a path that stat does not report missing gets code 6 |
| Exchanges.DataAppended | tftpd.go:126-134 | DATA n to a writing client is appended to the file and acknowledged with ACK n |
| Exchanges.DiskFullRefused | tftpd.go:128-131 | a DATA that finds the disk full gets code 3 |
| Exchanges.DiskFullWrite | tftpd.go:126-133 | `handleRequest` turns ENOSPC on a DATA into code 3 |
| Transfers.BlocksConcat | tftpd.go:139-155 | the blocks sent for a file, put together, are the file |
| Transfers.BlocksCount | tftpd.go:145-151 | a file of N bytes is sent in ceil(N/512)+1 blocks |
| Transfers.BlocksShape | tftpd.go:145-151 | all blocks are full but the last two; the last is empty, the one before it is not |
| Transfers.ThousandBytes | tftpd.go:145-151 | a 1000-byte file goes out as 512, 488 and 0 bytes |
| Transfers.Run | tftpd.go:56-87 | `handleConnection` on each datagram in turn, each in a buffer of its own and with its own file-system answers: one answer per datagram |
| Transfers.SendingRun | tftpd.go:99-103 | once a block has gone, the ACKs of the remaining blocks get them in order while every read succeeds, and the last ACK ends the session |
| Transfers.ReadSession | tftpd.go:56-155 | RRQ then the ACK of every block, the file as it was opened and every read succeeding: the file goes out as its blocks numbered from 1, the last ACK gets nothing, and the entry is gone |
| Transfers.WritingRun | tftpd.go:126-134 | while every write succeeds, each DATA is appended in order and acknowledged with its number |
| Transfers.WriteSession | tftpd.go:56-137 | WRQ for a missing path then DATA 1..k, every write succeeding: ACK 0 then ACK 1..k, the file is the payloads in order, and the entry stays |
| Transfers.SecondWriterRefused | tftpd.go:205-212 | two new clients send the same WRQ; the first creates the file, so the first gets ACK 0 and the second, finding the path, gets code 6 |
| Transfers.RrqRunCons | tftpd.go:56-87 | a run that starts with a new client's RRQ whose file opens and reads sends block 1, then goes on from the client's new entry |
| Transfers.DataRunCons | tftpd.go:126-134 | a run that starts with DATA j to a writing client whose write succeeds sends ACK j, then goes on with the payload appended |
| Transfers.ListenAsRun | tftpd.go:41-54 | datagrams that each carry their whole request are served by the reused-buffer loop as by `Run`, whatever the buffer held |
| Transfers.ReadSessionInBuffer | tftpd.go:41-155 | a whole read transfer through the receive loop gives `ReadSession`'s blocks and ends the session, whatever the buffer held |
| Transfers.WriteSessionInBuffer | tftpd.go:41-137 | a whole write transfer through the receive loop, with payloads that fit the buffer, gives `WriteSession`'s ACKs and file |
| Legacy.Decode | main.go:246-287 | decodes as the library does, except the mode error: code 0, the unformatted template, a space, the mode |
| Legacy.ModeMessagesDiffer | main.go:268 | the library's mode message is prefix, mode, suffix; main.go's is prefix, `%v`, suffix, a space and the mode, so it is 3 bytes longer for every mode |
| Legacy.Prepare | main.go:197-232 | fails exactly when opening the file fails, returning the mapped error with the client unchanged; on success the file is open for reading (RRQ) or writing, the block size is 512 and `bytesLeft` is the file size |
| Legacy.AfterRequest | main.go:109-153 | the client is inserted exactly when its address is unknown, the opcode is RRQ or WRQ, and `prepareFromRequest` succeeds |
| Legacy.AfterResponse | main.go:155-171 | a DATA response whose read fails returns that error with the client unchanged and the entry kept, and only then is there an error; otherwise the body is cut to the bytes read, `bytesLeft` drops by them, and the entry is deleted exactly when `bytesLeft <= 0` before the read |
| Legacy.Exchange | main.go:75-94 | something is sent exactly when there was no error; an unknown address ends up in the table only through RRQ/WRQ; an error leaves the client and its presence unchanged, except a new client's RRQ whose file opens but whose first read fails: that client stays in the table |
| Legacy.Serve | main.go:69-107 | every datagram is answered |
| Legacy.ExchangeSameMeaning | main.go:75-94 | two buffers that decode to the same request, apart from the unread bytes after a non-DATA request, are handled alike |
| Legacy.AfterRequestIgnoresBody | main.go:109-153 | main.go's `handleRequest` reads the payload of a DATA request alone |
| Legacy.ServeReceived | main.go:56-66 | a datagram that carries its whole request is served the same from the reused buffer as on its own |
| Legacy.Listen | main.go:56-67 | main.go's receive loop over one reused buffer, each arrival with its own file-system answers, gives one answer per datagram |
| Legacy.ServeTouchesOnlyItsAddress | main.go:69-107 | every datagram is answered, touches only its own address's entry, and creates an entry only for an RRQ or WRQ |
| Legacy.ErrorKeepsTable | main.go:96-106 | an ERROR packet sent by main.go leaves the table exactly as it was, except after a new client's RRQ whose first read fails, which adds that client's entry; every other answer is a DATA, an ACK or the zero response |
| Legacy.Client.constructor | main.go:191-195 | `newClient` has the given address and every other field zero |
| Legacy.Client.PrepareFromRequest | main.go:197-232 | updates the client's fields as `Legacy.Prepare` specifies |
| Legacy.Server.constructor | main.go:37-47 | the table starts empty |
| Legacy.Server.HandleRequest | main.go:109-153 | the gates in order, inserting the client only after a successful prepare |
| Legacy.Server.HandleResponse | main.go:155-171 | a failed read returns its error and changes nothing; otherwise the entry is deleted when the DATA built finds `bytesLeft <= 0` |
| Legacy.Server.Process | main.go:75-94 | the function literal leaves the client and the table as `Legacy.Exchange` says |
| Legacy.Server.HandleConnection | main.go:69-107 | the table after one datagram and the packet sent are those of `Legacy.Serve` |
| Legacy.Server.ReadFrom | main.go:59 | the read writes the datagram over the head of the buffer as `Receive` says, returns `Received` bytes, and leaves the table alone |
| Legacy.Server.ServeNext | main.go:58-65 | one turn of the loop: the answer is the first of `Legacy.Listen`'s, and the rest goes on from the new table and buffer |
| Legacy.Server.ListenAndServe | main.go:56-67 | over a buffer allocated zeroed once, the table afterwards and the answers sent are those of `Legacy.Listen` |
| LegacyTransfers.IllegalOpcodeRefused | main.go:115-117 | an opcode outside 1..5 gets code 4 and the table is unchanged |
| LegacyTransfers.UnknownTransferRefused | main.go:119-123 | DATA, ACK or ERROR from an address not in the table gets code 5, and no entry is made |
| LegacyTransfers.PrepareFailureRefused | main.go:131-139 | a new client's RRQ/WRQ whose open fails gets the mapped error, and the table is unchanged |
| LegacyTransfers.BadModeRefused | main.go:267-269 | a non-octet mode gets code 0 with the template, a space and the mode; the table is unchanged |
| LegacyTransfers.UndecodableAnswered | main.go:96-101 | a datagram that does not decode gets code 0 "Unexpected error." |
| LegacyTransfers.PeerErrorAnsweredWithZeros | main.go:126-129 | an ERROR from a known client is answered with four zero bytes and its entry stays |
| LegacyTransfers.ExchangeReadFailed | main.go:75-94 | when `handleResponse` fails, the client is as `handleRequest` left it, inserted if it was, and nothing else is sent |
| LegacyTransfers.RrqReadFailureKept | main.go:131-139 | a new client's RRQ for a file that opens but does not read (a directory, say) gets code 0 "Unexpected error.", and the client stays in the table with its file open, inserted before the read failed |
| LegacyTransfers.AckReadFailureRefused | main.go:155-160 | an ACK to a reading client whose next read fails gets code 0 "Unexpected error." and the table is unchanged |
| LegacyTransfers.ReadStep | main.go:155-171 | a read cuts the next block off the unread part; the read made when nothing is left deletes the entry |
| LegacyTransfers.AckSendsNextBlock | main.go:155-171 | an ACK n gets DATA n+1 with the next block; the block built with nothing left deletes the entry in the same step |
| LegacyTransfers.RrqSendsFirstBlock | main.go:131-139 | a new client's RRQ for a file that opens gets DATA 1; the client enters the table unless that block was already the last |
| LegacyTransfers.WrqAcknowledged | main.go:131-139 | a new client's WRQ for a missing path gets ACK 0 and enters the table |
| LegacyTransfers.DataAppended | main.go:142-150 | DATA n to a writing client is appended and acknowledged with ACK n |
| LegacyTransfers.DiskFullRefused | main.go:142-150 | a DATA that finds the disk full gets code 3 and the table is unchanged |
| LegacyTransfers.Run | main.go:69-107 | main.go's `handleConnection` on each datagram in turn, each in a buffer of its own and with its own file-system answers: one answer per datagram |
| LegacyTransfers.AckAfterEnd | main.go:119-123 | once the entry is gone, an ACK gets code 5 |
| LegacyTransfers.AckRunCons | main.go:155-171 | a run that starts with an ACK to a reading client whose read succeeds sends the next block, then goes on from the entry that block leaves |
| LegacyTransfers.SendingRun | main.go:155-171 | the ACKs of the remaining blocks get them in order while every read succeeds; the ACK of the last block gets code 5 |
| LegacyTransfers.ReadSession | main.go:69-171 | RRQ then the ACK of every block, every read succeeding: the same blocks as the library server, but the last ACK gets code 5, and the table ends as it began |
| LegacyTransfers.RrqRunCons | main.go:131-139 | a run that starts with a new client's RRQ whose file opens and reads sends block 1, then goes on from the entry that block leaves |
| LegacyTransfers.WrqRunCons | main.go:131-139 | a run that starts with a new client's WRQ for a missing path sends ACK 0, then goes on with the client writing an empty file |
| LegacyTransfers.DataRunCons | main.go:142-150 | a run that starts with DATA j to a writing client whose write succeeds sends ACK j, then goes on with the payload appended |
| LegacyTransfers.WritingRun | main.go:142-150 | while every write succeeds, each DATA is appended in order and acknowledged with its number |
| LegacyTransfers.WriteSession | main.go:69-153 | WRQ for a missing path then DATA 1..k, every write succeeding: ACK 0 then ACK 1..k, the file is the payloads in order, and the entry stays |
| LegacyTransfers.ListenAsRun | main.go:56-67 | datagrams that each carry their whole request are served by main.go's loop as by `Run`, whatever the buffer held |
| LegacyTransfers.ReadSessionInBuffer | main.go:56-171 | a whole read transfer through main.go's loop gives the blocks, then code 5 for the last ACK, and leaves the table as it was |
| LegacyTransfers.WriteSessionInBuffer | main.go:56-153 | a whole write transfer through main.go's loop, with payloads that fit the buffer, gives `WriteSession`'s ACKs and file |
| LegacyTransfers.ReadSessionsCompared | main.go:161-165 | the two servers send the same blocks for a read and differ only in the answer to the last ACK |

## Left out

- UDP I/O is not modelled beyond the receive buffer. The datagrams that arrive are a parameter of `ListenAndServe`, and the endless loop runs over a finite list of them. `net.ListenPacket`, `WriteTo` and `Close` are left out. `sendResponse` is modelled as the bytes it would write.
- A failing `ReadFrom` is not modelled. The loop only logs it and reads again, and nothing else changes.
- Transfers.Run and LegacyTransfers.Run give each datagram a buffer of its own, sized to the datagram. Shorter datagrams and stale bytes are handled by `Listen`, and `ListenAsRun` relates the two for datagrams that carry their whole request.
- The real file system is not modelled. `os.Open`, `os.Create`, `os.Stat`, `io.Copy` and `file.Read` are replaced by an `Oracle` per datagram and an abstract file. Any answers are allowed from one datagram to the next; the model does not derive a later answer from the server's own writes, so `SecondWriterRefused` takes a second oracle in which the path exists.
- The bytes an RRQ sends are fixed when the file is opened (the oracle's `content`). A file changed by another process during a transfer is not modelled, apart from a read that fails.
- A failing `f.Stat()` after a successful open is not modelled. The oracle has no outcome for it.
- Partial writes are not modelled. A write either appends the whole payload or fails.
- Short reads are not modelled. A read returns `min(buffer, unread)` bytes.
- Logging is not modelled.
- The `Error()` formatting of a `*tftpError` is not modelled. Only code and message go on the wire.
- The panic when sending an ERROR fails is not modelled. Sending never fails.
- Timeouts, retransmission, duplicate ACKs, option negotiation and ending a write session do not exist in the code, so the model has none.
- `NewTFTPServer` and `main` are not modelled beyond an empty table. They only open the socket.
- cmd/go-tftpd/main.go is not part of this model. It is a wrapper that starts the library server.
- The network address is modelled as its `addr.String()` key. Two addresses with the same string are the same client.
- A datagram larger than the 2048-byte buffer is cut to 2048 bytes (`Received`), as a UDP read into a short buffer does.
- Packets.NewRequest and Legacy.Decode answer a DATA/ACK shorter than four bytes with an error. The code panics there, as the Findings row shows.

## Findings

| source | as written | input that shows it | evidently intended | confidence | as-written member | corrected member |
|---|---|---|---|---|---|---|
| tftpd.go:280-282 (and main.go:273-275) | a DATA or ACK datagram is cut with `body[:numRead-4]` without checking `numRead >= 4`; the slice bound is negative and the server panics | a 2-byte datagram `[0, 4]` (ACK) in the receive buffer: `numRead = 2` | a datagram shorter than its header is refused like any other malformed packet | not executed | Packets.ShortAckReachesBadSlice | Exchanges.ShortAckAnswered |
