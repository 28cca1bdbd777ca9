/**
 * The file calls of `prepareFromRequest` and of the handlers (`os.Open`,
 * `os.Stat`, `os.Create`, `f.Stat`, `file.Read`, `io.Copy`), over an abstract
 * file: the OS's answers come from an oracle given with each datagram.
 */
module Files {
  import opened Base
  import opened Packets

  const DefaultBlockSize: nat := 512

  /** The answer to one file-system call. */
  datatype Outcome = Done | Failed(err: FsError)

  /**
   * What the file system answers while one datagram is handled: `os.Stat` of
   * the requested path (`Done` = the path exists), `os.Open`/`os.Create`, the
   * contents of the file an RRQ opens, the outcome of reading the next DATA
   * block from the client's file, and that of writing a DATA payload.
   */
  datatype Oracle = Oracle(stat: Outcome, open: Outcome, content: seq<byte>, read: Outcome, write: Outcome)

  /**
   * An open file: one opened for reading is the part not yet read (its read
   * cursor); one created for writing is what has been appended, its offset
   * always at the end.
   */
  datatype Handle = Reader(unread: seq<byte>) | Writer(written: seq<byte>)

  /** The client's `file` field: nil, open, or closed. */
  datatype FileRef = NoFile | Open(handle: Handle) | Closed

  /** The file a successful `prepareFromRequest` installs, with `stat.Size()`. */
  datatype Opened = Opened(file: FileRef, size: int)

  /**
   * The switch on an open error: not-found, permission and no-space become
   * codes 1, 2 and 3; any other error is passed on as it is.
   */
  function OpenError(kind: FsError): (e: Error)
    ensures kind == NotFound ==> e == Tftp(TftpError(FileNotFound, Message(FileNotFound)))
    ensures kind == Permission ==> e == Tftp(TftpError(AccessViolation, Message(AccessViolation)))
    ensures kind == NoSpace ==> e == Tftp(TftpError(DiskFull, Message(DiskFull)))
    ensures kind !in {NotFound, Permission, NoSpace} ==> e == Unexpected(OsError(kind))
  {
    match kind
    case NotFound => Tftp(NewTFTPError(FileNotFound, []))
    case Permission => Tftp(NewTFTPError(AccessViolation, []))
    case NoSpace => Tftp(NewTFTPError(DiskFull, []))
    case _ => Unexpected(OsError(kind))
  }

  /**
   * The file work of `prepareFromRequest`: an RRQ opens the path for reading;
   * anything else is taken as a WRQ, refused with code 6 unless `os.Stat`
   * reports that the path does not exist, and then creates it empty.
   */
  function OpenFor(req: Request, fs: Oracle): (r: Result<Opened>)
    ensures req.opcode == OpRrq && fs.open == Done ==>
              r == Ok(Opened(Open(Reader(fs.content)), |fs.content|))
    ensures req.opcode == OpRrq && fs.open.Failed? ==> r == Err(OpenError(fs.open.err))
    ensures req.opcode != OpRrq && fs.stat != Failed(NotFound) ==>
              r == Err(Tftp(TftpError(FileAlreadyExists, Message(FileAlreadyExists))))
    ensures req.opcode != OpRrq && fs.stat == Failed(NotFound) ==>
              r == if fs.open == Done then Ok(Opened(Open(Writer([])), 0)) else Err(OpenError(fs.open.err))
  {
    if req.opcode == OpRrq then
      if fs.open.Failed? then Err(OpenError(fs.open.err))
      else Ok(Opened(Open(Reader(fs.content)), |fs.content|))
    else if fs.stat != Failed(NotFound) then
      Err(Tftp(NewTFTPError(FileAlreadyExists, [])))
    else if fs.open.Failed? then
      Err(OpenError(fs.open.err))
    else
      Ok(Opened(Open(Writer([])), 0))
  }

  /** What `file.Read` of a buffer returns: the bytes read and the file after. */
  datatype ReadResult = Got(chunk: seq<byte>, file: FileRef) | ReadFailed(fault: Fault)

  /**
   * `file.Read` into a buffer of `size` bytes: a nil or closed file fails; on
   * an open file the OS may fail the read (`outcome`, an error other than
   * end of file, such as reading a directory); otherwise a file open for
   * reading gives the next `min(size, unread)` bytes (end of file is not an
   * error), and a created file reads nothing, its offset being at its end.
   */
  function Read(f: FileRef, size: nat, outcome: Outcome): (r: ReadResult)
    ensures r.ReadFailed? <==> !f.Open? || outcome.Failed?
    ensures !f.Open? ==> r == ReadFailed(BadHandle)
    ensures f.Open? && outcome.Failed? ==> r == ReadFailed(OsError(outcome.err))
    ensures r.Got? ==> |r.chunk| <= size && r.file.Open?
    ensures f.Open? && f.handle.Reader? && outcome == Done ==>
              r.Got? && r.file.handle.Reader? && r.chunk + r.file.handle.unread == f.handle.unread
    ensures f.Open? && f.handle.Reader? && outcome == Done ==> (|r.chunk| == size || r.file.handle.unread == [])
    ensures f.Open? && f.handle.Writer? && outcome == Done ==> r == Got([], f)
  {
    match f
    case Open(h) =>
      if outcome.Failed? then ReadFailed(OsError(outcome.err))
      else if h.Reader? then
        var u := h.unread;
        var n := if size < |u| then size else |u|;
        assert u[..n] + u[n..] == u;
        Got(u[..n], Open(Reader(u[n..])))
      else Got([], f)
    case _ => ReadFailed(BadHandle)
  }

  /**
   * `io.Copy(file, bytes.NewReader(payload))`: an empty payload writes nothing
   * and succeeds; otherwise the file must be open for writing, and the
   * oracle's write outcome decides, a full disk becoming code 3.
   */
  function CopyIn(f: FileRef, payload: seq<byte>, outcome: Outcome): (r: Result<FileRef>)
    ensures payload == [] ==> r == Ok(f)
    ensures payload != [] && f.Open? && f.handle.Writer? && outcome == Done ==>
              r == Ok(Open(Writer(f.handle.written + payload)))
    ensures payload != [] && outcome == Failed(NoSpace) && f.Open? && f.handle.Writer? ==>
              r == Err(Tftp(TftpError(DiskFull, Message(DiskFull))))
    ensures payload != [] && outcome.Failed? && outcome.err != NoSpace && f.Open? && f.handle.Writer? ==>
              r == Err(Unexpected(OsError(outcome.err)))
    ensures payload != [] && !(f.Open? && f.handle.Writer?) ==> r == Err(Unexpected(BadHandle))
  {
    if payload == [] then Ok(f)
    else match f
      case Open(Writer(w)) =>
        if outcome == Done then Ok(Open(Writer(w + payload)))
        else if outcome.err == NoSpace then Err(Tftp(NewTFTPError(DiskFull, [])))
        else Err(Unexpected(OsError(outcome.err)))
      case _ => Err(Unexpected(BadHandle))
  }
}
