/**
 * Whole transfers with the library server: the datagrams a well-behaved
 * peer sends, fed to `Serve` one after the other, and what comes back.
 */
module Transfers {
  import opened Base
  import opened Packets
  import opened Files
  import opened Session
  import opened Exchanges

  /**
   * The DATA payloads a file is sent in. The server counts the bytes left
   * before each read, and only a read made when none were left closes the
   * file, so every file ends with an empty block, even one whose size is not
   * a multiple of the block size.
   */
  function Blocks(u: seq<byte>): seq<seq<byte>>
    decreases |u|
  {
    if u == [] then [[]] else [Chunk(u)] + Blocks(u[|Chunk(u)|..])
  }

  /** The payloads one after the other. */
  function Concat(bs: seq<seq<byte>>): seq<byte>
  {
    if bs == [] then [] else bs[0] + Concat(bs[1..])
  }

  lemma {:induction false} ConcatAppend(bs: seq<seq<byte>>, b: seq<byte>)
    ensures Concat(bs + [b]) == Concat(bs) + b
  {
    if bs != [] {
      assert (bs + [b])[1..] == bs[1..] + [b];
      ConcatAppend(bs[1..], b);
    }
  }

  /** The blocks of a file put back together are the file. */
  lemma {:induction false} BlocksConcat(u: seq<byte>)
    ensures Concat(Blocks(u)) == u
    decreases |u|
  {
    if u != [] {
      var k := |Chunk(u)|;
      BlocksConcat(u[k..]);
      assert u[..k] + u[k..] == u;
    }
  }

  /** There are `ceil(|u| / 512) + 1` blocks. */
  lemma {:induction false} BlocksCount(u: seq<byte>)
    ensures |Blocks(u)| == (|u| + DefaultBlockSize - 1) / DefaultBlockSize + 1
    decreases |u|
  {
    if u != [] {
      var k := |Chunk(u)|;
      BlocksCount(u[k..]);
      if |u| < DefaultBlockSize {
        assert u[k..] == [];
      }
    }
  }

  /** All blocks are full but the last two; the last is empty, the one before it is not. */
  lemma {:induction false} BlocksShape(u: seq<byte>)
    ensures Blocks(u)[|Blocks(u)| - 1] == []
    ensures forall i :: 0 <= i < |Blocks(u)| - 1 ==> Blocks(u)[i] != []
    ensures forall i :: 0 <= i < |Blocks(u)| - 2 ==> |Blocks(u)[i]| == DefaultBlockSize
    decreases |u|
  {
    if u != [] {
      var k := |Chunk(u)|;
      BlocksShape(u[k..]);
      if |u| < DefaultBlockSize {
        assert u[k..] == [];
      }
    }
  }

  /** A 1000-byte file goes out as 512 bytes, 488 bytes, and an empty block. */
  lemma ThousandBytes(u: seq<byte>)
    requires |u| == 1000
    ensures |Blocks(u)| == 3
    ensures |Blocks(u)[0]| == 512 && |Blocks(u)[1]| == 488 && Blocks(u)[2] == []
  {
    var v := u[512..];
    assert Blocks(u) == [u[..512]] + Blocks(v);
    assert Blocks(v) == [v] + Blocks(v[488..]);
    assert v[488..] == [];
  }

  /**
   * `handleConnection` for each datagram in turn, all from `addr`, each read
   * whole (`numRead` is its length), with the file system answering the
   * `i`th as `fss[i]` says: its answers may change from one datagram to the
   * next.
   */
  function Run(t: map<Addr, ClientState>, addr: Addr, datagrams: seq<seq<byte>>, fss: seq<Oracle>): (r: Trace)
    requires |fss| == |datagrams|
    requires forall i :: 0 <= i < |datagrams| ==> 4 <= |datagrams[i]|
    ensures |r.sent| == |datagrams|
    decreases |datagrams|
  {
    if datagrams == [] then Trace(t, [])
    else
      var s := Serve(t, addr, |datagrams[0]|, datagrams[0], fss[0]);
      var rest := Run(s.table, addr, datagrams[1..], fss[1..]);
      Trace(rest.table, [s.sent] + rest.sent)
  }

  /**
   * Every read of the open file succeeds while a read transfer is under way:
   * for each datagram but the last, whose ACK ends the session without a read.
   */
  predicate ReadsSucceed(fss: seq<Oracle>)
  {
    |fss| <= 1 || (fss[0].read == Done && ReadsSucceed(fss[1..]))
  }

  /** Every write to the created file succeeds. */
  predicate WritesSucceed(fss: seq<Oracle>)
  {
    fss == [] || (fss[0].write == Done && WritesSucceed(fss[1..]))
  }

  /** ACKs of blocks `j`, `j + 1`, ..., `k` of them. */
  function Acks(j: nat, k: nat): (r: seq<seq<byte>>)
    ensures |r| == k && forall i :: 0 <= i < k ==> r[i] == Ack(j + i)
    ensures forall i :: 0 <= i < k ==> 4 <= |r[i]|
  {
    seq(k, i requires 0 <= i < k => Ack(j + i))
  }

  /** DATA packets numbered from `j` carrying `payloads`. */
  function Datas(j: nat, payloads: seq<seq<byte>>): (r: seq<seq<byte>>)
    ensures |r| == |payloads| && forall i :: 0 <= i < |payloads| ==> r[i] == Data(j + i, payloads[i])
    ensures forall i :: 0 <= i < |payloads| ==> 4 <= |r[i]|
  {
    seq(|payloads|, i requires 0 <= i < |payloads| => Data(j + i, payloads[i]))
  }

  /** The answers: DATA packets numbered from `j` carrying `payloads`. */
  function DataSent(j: nat, payloads: seq<seq<byte>>): (r: seq<Option<seq<byte>>>)
    ensures |r| == |payloads|
    decreases |payloads|
  {
    if payloads == [] then [] else [Some(Data(j, payloads[0]))] + DataSent(j + 1, payloads[1..])
  }

  /** The answers: ACKs of blocks `j`, `j + 1`, ..., `k` of them. */
  function AckSent(j: nat, k: nat): (r: seq<Option<seq<byte>>>)
    ensures |r| == k && forall i :: 0 <= i < k ==> r[i] == Some(Ack(j + i))
  {
    seq(k, i requires 0 <= i < k => Some(Ack(j + i)))
  }

  lemma AcksCons(j: nat, k: nat)
    requires 0 < k
    ensures Acks(j, k) == [Ack(j)] + Acks(j + 1, k - 1)
  {
    var r := [Ack(j)] + Acks(j + 1, k - 1);
    forall i | 0 <= i < k
      ensures r[i] == Acks(j, k)[i]
    {
      if 0 < i {
        AcksShift(j, k, i);
      }
    }
  }

  /** Entry `i` of the ACKs from `j` is entry `i - 1` of those from `j + 1`. */
  lemma AcksShift(j: nat, k: nat, i: nat)
    requires 0 < i < k
    ensures Acks(j, k)[i] == Acks(j + 1, k - 1)[i - 1]
  {
    assert j + 1 + (i - 1) == j + i;
  }

  lemma DatasCons(j: nat, payloads: seq<seq<byte>>)
    requires payloads != []
    ensures Datas(j, payloads) == [Data(j, payloads[0])] + Datas(j + 1, payloads[1..])
  {
  }

  lemma AckSentCons(j: nat, k: nat)
    requires 0 < k
    ensures AckSent(j, k) == [Some(Ack(j))] + AckSent(j + 1, k - 1)
  {
    var r := [Some(Ack(j))] + AckSent(j + 1, k - 1);
    forall i | 0 <= i < k
      ensures r[i] == AckSent(j, k)[i]
    {
      if 0 < i {
        AckSentShift(j, k, i);
      }
    }
  }

  /** Entry `i` of the answers from `j` is entry `i - 1` of those from `j + 1`. */
  lemma AckSentShift(j: nat, k: nat, i: nat)
    requires 0 < i < k
    ensures AckSent(j, k)[i] == AckSent(j + 1, k - 1)[i - 1]
  {
    assert j + 1 + (i - 1) == j + i;
  }

  /** Regrouping a concatenation, stated for any element type so that no packet is unfolded. */
  lemma ConsAppend<A>(x: A, a: seq<A>, b: seq<A>)
    ensures [x] + (a + b) == ([x] + a) + b
  {
  }

  /** The answers to the ACKs of a file's blocks, the first block apart from the rest. */
  lemma SentFrom(u: seq<byte>, j: nat, last: Option<seq<byte>>)
    ensures DataSent(j, Blocks(u)) + [last] == [Some(Data(j, Chunk(u)))] + (DataSent(j + 1, Blocks(u)[1..]) + [last])
  {
    var rest := DataSent(j + 1, Blocks(u)[1..]);
    assert Blocks(u)[0] == Chunk(u);
    assert DataSent(j, Blocks(u)) == [Some(Data(j, Chunk(u)))] + rest;
    ConsAppend(Some(Data(j, Chunk(u))), rest, [last]);
  }

  /** Dropping an entry that is not there changes nothing. */
  lemma RemoveAbsent<K, V>(t: map<K, V>, k: K)
    requires k !in t
    ensures t - {k} == t
  {
  }

  /** Dropping an entry just updated leaves the rest of the table. */
  lemma RemoveUpdated<K, V>(t: map<K, V>, k: K, v: V)
    ensures t[k := v] - {k} == t - {k}
  {
  }

  /** The first datagram of a run, answered as `r` says, and the run of the rest. */
  lemma RunCons(t: map<Addr, ClientState>, addr: Addr, d: seq<byte>, ds: seq<seq<byte>>, fss: seq<Oracle>, r: Served)
    requires 4 <= |d| && forall i :: 0 <= i < |ds| ==> 4 <= |ds[i]|
    requires |fss| == 1 + |ds| && Serve(t, addr, |d|, d, fss[0]) == r
    ensures Run(t, addr, [d] + ds, fss)
            == Trace(Run(r.table, addr, ds, fss[1..]).table, [r.sent] + Run(r.table, addr, ds, fss[1..]).sent)
  {
    assert ([d] + ds)[0] == d;
    assert ([d] + ds)[1..] == ds;
  }

  /** `RunCons` with the run of the rest already known. */
  lemma RunFrom(t: map<Addr, ClientState>, addr: Addr, d: seq<byte>, ds: seq<seq<byte>>, fss: seq<Oracle>,
                r: Served, rest: Trace)
    requires 4 <= |d| && forall i :: 0 <= i < |ds| ==> 4 <= |ds[i]|
    requires |fss| == 1 + |ds| && Serve(t, addr, |d|, d, fss[0]) == r && Run(r.table, addr, ds, fss[1..]) == rest
    ensures Run(t, addr, [d] + ds, fss) == Trace(rest.table, [r.sent] + rest.sent)
  {
    RunCons(t, addr, d, ds, fss, r);
  }

  /**
   * Once block `j` (the first block of `u`) has gone, the ACKs of it and of
   * each later block get the remaining blocks, and the ACK of the empty last
   * block ends the session.
   */
  lemma {:induction false} SendingRun(t: map<Addr, ClientState>, addr: Addr, u: seq<byte>, j: nat, fss: seq<Oracle>)
    requires addr in t && t[addr] == AfterBlock(u)
    requires |fss| == |Blocks(u)| && ReadsSucceed(fss)
    ensures Run(t, addr, Acks(j, |Blocks(u)|), fss) == Trace(t - {addr}, DataSent(j + 1, Blocks(u)[1..]) + [None])
    decreases |u|, 1
  {
    if u == [] {
      LastBlockRun(t, addr, j, fss);
    } else {
      SendingStep(t, addr, u, j, fss);
    }
  }

  /** The base of `SendingRun`: the ACK of the empty last block ends the session unanswered. */
  lemma LastBlockRun(t: map<Addr, ClientState>, addr: Addr, j: nat, fss: seq<Oracle>)
    requires addr in t && t[addr] == AfterBlock([]) && |fss| == |Blocks([])|
    ensures Run(t, addr, Acks(j, |Blocks([])|), fss) == Trace(t - {addr}, DataSent(j + 1, Blocks([])[1..]) + [None])
  {
    AcksCons(j, 1);
    LastAckEndsSession(t, addr, 4, Ack(j), fss[0]);
    RunCons(t, addr, Ack(j), [], fss, Served(t - {addr}, None));
  }

  /** The step of `SendingRun`: the ACK of the first block, then the run of the others. */
  lemma {:induction false} SendingStep(t: map<Addr, ClientState>, addr: Addr, u: seq<byte>, j: nat, fss: seq<Oracle>)
    requires addr in t && t[addr] == AfterBlock(u) && u != []
    requires |fss| == |Blocks(u)| && ReadsSucceed(fss)
    ensures Run(t, addr, Acks(j, |Blocks(u)|), fss) == Trace(t - {addr}, DataSent(j + 1, Blocks(u)[1..]) + [None])
    decreases |u|, 0
  {
    var v := u[|Chunk(u)|..];
    var t' := t[addr := AfterBlock(v)];
    SendingFacts(t, addr, u, j);
    SendingRun(t', addr, v, j + 1, fss[1..]);
    AckSendsNextBlock(t, addr, j, v, fss[0]);
    RunFrom(t, addr, Ack(j), Acks(j + 1, |Blocks(v)|), fss, Served(t', Some(Data(j + 1, Chunk(v)))),
            Trace(t' - {addr}, DataSent(j + 1 + 1, Blocks(v)[1..]) + [None]));
  }

  /** What `SendingStep` needs of the blocks, the ACKs and the table, apart from any exchange. */
  lemma SendingFacts(t: map<Addr, ClientState>, addr: Addr, u: seq<byte>, j: nat)
    requires u != []
    ensures var v := u[|Chunk(u)|..];
            && |Blocks(u)| == 1 + |Blocks(v)| && 0 < |Blocks(v)|
            && t[addr := AfterBlock(v)] - {addr} == t - {addr}
            && Acks(j, |Blocks(u)|) == [Ack(j)] + Acks(j + 1, |Blocks(v)|)
            && DataSent(j + 1, Blocks(u)[1..]) + [None]
               == [Some(Data(j + 1, Chunk(v)))] + (DataSent(j + 1 + 1, Blocks(v)[1..]) + [None])
  {
    var v := u[|Chunk(u)|..];
    assert Blocks(u)[1..] == Blocks(v);
    SentFrom(v, j + 1, None);
    AcksCons(j, |Blocks(u)|);
    RemoveUpdated(t, addr, AfterBlock(v));
  }

  /**
   * A read transfer: a new client's RRQ for a file that opens, then the ACK
   * of every block it receives, every read succeeding. The blocks come
   * numbered from 1 (mod 2^16), the last ACK gets no answer, and the
   * client's entry is gone. The bytes sent are those the file held when the
   * RRQ opened it.
   */
  lemma ReadSession(t: map<Addr, ClientState>, addr: Addr, name: seq<byte>, fss: seq<Oracle>)
    requires Current(t, addr) == Fresh && 0 !in name
    requires 0 < |fss| && fss[0].open == Done && |fss| == 1 + |Blocks(fss[0].content)| && ReadsSucceed(fss)
    ensures var k := |Blocks(fss[0].content)|;
            Run(t, addr, [TransferRequest(OpRrq, name, Octet)] + Acks(1, k), fss)
            == Trace(t - {addr}, DataSent(1, Blocks(fss[0].content)) + [None])
  {
    var u := fss[0].content;
    var rest := DataSent(1 + 1, Blocks(u)[1..]) + [None];
    BlocksNonEmpty(u);
    RestOfBlocksSent(t, addr, u, fss[1..]);
    RrqRunCons(t, addr, name, Acks(1, |Blocks(u)|), fss);
    assert [Some(Data(1, Chunk(u)))] + rest == DataSent(1, Blocks(u)) + [None] by {
      SentFrom(u, 1, None);
    }
  }

  /** The ACKs of the blocks of `u` after the first, once that has gone. */
  lemma RestOfBlocksSent(t: map<Addr, ClientState>, addr: Addr, u: seq<byte>, fss: seq<Oracle>)
    requires |fss| == |Blocks(u)| && ReadsSucceed(fss)
    ensures Run(t[addr := AfterBlock(u)], addr, Acks(1, |Blocks(u)|), fss)
            == Trace(t - {addr}, DataSent(1 + 1, Blocks(u)[1..]) + [None])
  {
    SendingRun(t[addr := AfterBlock(u)], addr, u, 1, fss);
    RemoveUpdated(t, addr, AfterBlock(u));
  }

  /** A run that starts with a new client's RRQ for a file that opens and reads: block 1, then the rest. */
  lemma RrqRunCons(t: map<Addr, ClientState>, addr: Addr, name: seq<byte>, ds: seq<seq<byte>>, fss: seq<Oracle>)
    requires Current(t, addr) == Fresh && 0 !in name && forall i :: 0 <= i < |ds| ==> 4 <= |ds[i]|
    requires |fss| == 1 + |ds| && fss[0].open == Done && fss[0].read == Done
    ensures var u := fss[0].content;
            var rest := Run(t[addr := AfterBlock(u)], addr, ds, fss[1..]);
            Run(t, addr, [TransferRequest(OpRrq, name, Octet)] + ds, fss)
            == Trace(rest.table, [Some(Data(1, Chunk(u)))] + rest.sent)
  {
    var u := fss[0].content;
    var rrq := TransferRequest(OpRrq, name, Octet);
    RrqSendsFirstBlock(t, addr, name, fss[0]);
    RunCons(t, addr, rrq, ds, fss, Served(t[addr := AfterBlock(u)], Some(Data(1, Chunk(u)))));
  }

  lemma BlocksNonEmpty(u: seq<byte>)
    ensures 0 < |Blocks(u)|
  {
  }

  /** A writing client appends each DATA payload and acknowledges it with its number. */
  lemma {:induction false} WritingRun(t: map<Addr, ClientState>, addr: Addr, w: seq<byte>,
                                      payloads: seq<seq<byte>>, j: nat, fss: seq<Oracle>)
    requires addr in t && t[addr] == Writing(w) && |fss| == |payloads| && WritesSucceed(fss)
    ensures Run(t, addr, Datas(j, payloads), fss)
            == Trace(t[addr := Writing(w + Concat(payloads))], AckSent(j, |payloads|))
    decreases |payloads|
  {
    if payloads == [] {
      assert w + Concat(payloads) == w;
      assert t[addr := Writing(w)] == t;
    } else {
      var p := payloads[0];
        WritingRun(t[addr := Writing(w + p)], addr, w + p, payloads[1..], j + 1, fss[1..]);
      WritingStep(t, addr, w, payloads, j, fss);
    }
  }

  /** The step of `WritingRun`: its first DATA, given the run of the others. */
  lemma WritingStep(t: map<Addr, ClientState>, addr: Addr, w: seq<byte>, payloads: seq<seq<byte>>, j: nat,
                    fss: seq<Oracle>)
    requires addr in t && t[addr] == Writing(w) && payloads != []
    requires |fss| == |payloads| && fss[0].write == Done
    requires var t' := t[addr := Writing(w + payloads[0])];
             Run(t', addr, Datas(j + 1, payloads[1..]), fss[1..])
             == Trace(t'[addr := Writing(w + payloads[0] + Concat(payloads[1..]))], AckSent(j + 1, |payloads| - 1))
    ensures Run(t, addr, Datas(j, payloads), fss)
            == Trace(t[addr := Writing(w + Concat(payloads))], AckSent(j, |payloads|))
  {
    var p := payloads[0];
    DatasCons(j, payloads);
    DataRunCons(t, addr, j, p, w, Datas(j + 1, payloads[1..]), fss);
    WrittenInTurn(t, addr, w, payloads);
    AckSentCons(j, |payloads|);
  }

  /** A run that starts with DATA `j` to a writing client whose write succeeds: ACK `j`, then the rest. */
  lemma DataRunCons(t: map<Addr, ClientState>, addr: Addr, j: nat, p: seq<byte>, w: seq<byte>, ds: seq<seq<byte>>,
                    fss: seq<Oracle>)
    requires addr in t && t[addr] == Writing(w) && forall i :: 0 <= i < |ds| ==> 4 <= |ds[i]|
    requires |fss| == 1 + |ds| && fss[0].write == Done
    ensures var rest := Run(t[addr := Writing(w + p)], addr, ds, fss[1..]);
            Run(t, addr, [Data(j, p)] + ds, fss) == Trace(rest.table, [Some(Ack(j))] + rest.sent)
  {
    DataAppended(t, addr, j, p, w, fss[0]);
    RunCons(t, addr, Data(j, p), ds, fss, Served(t[addr := Writing(w + p)], Some(Ack(j))));
  }

  lemma WrittenFromEmpty(t: map<Addr, ClientState>, addr: Addr, payloads: seq<seq<byte>>)
    ensures t[addr := Writing([])][addr := Writing([] + Concat(payloads))] == t[addr := Writing(Concat(payloads))]
  {
    assert [] + Concat(payloads) == Concat(payloads);
  }

  lemma WrittenInTurn(t: map<Addr, ClientState>, addr: Addr, w: seq<byte>, payloads: seq<seq<byte>>)
    requires payloads != []
    ensures t[addr := Writing(w + payloads[0])][addr := Writing(w + payloads[0] + Concat(payloads[1..]))]
            == t[addr := Writing(w + Concat(payloads))]
  {
    assert w + payloads[0] + Concat(payloads[1..]) == w + Concat(payloads);
  }

  /**
   * A write transfer: a new client's WRQ for a path that does not exist,
   * then DATA blocks numbered from 1, every write succeeding. The WRQ gets
   * ACK 0, each block its own ACK, the file holds the payloads in order, and
   * the entry stays in the table: nothing in the server ends a write
   * session.
   */
  lemma WriteSession(t: map<Addr, ClientState>, addr: Addr, name: seq<byte>, payloads: seq<seq<byte>>,
                     fss: seq<Oracle>)
    requires Current(t, addr) == Fresh && 0 !in name
    requires |fss| == 1 + |payloads| && fss[0].stat == Failed(NotFound) && fss[0].open == Done
    requires WritesSucceed(fss[1..])
    ensures Run(t, addr, [TransferRequest(OpWrq, name, Octet)] + Datas(1, payloads), fss)
            == Trace(t[addr := Writing(Concat(payloads))], [Some(Ack(0))] + AckSent(1, |payloads|))
  {
    WrqAcknowledged(t, addr, name, fss[0]);
    AcknowledgedThenWritten(t, addr, TransferRequest(OpWrq, name, Octet), payloads, fss);
  }

  /** A datagram answered with ACK 0 that makes a writing client, then DATA blocks numbered from 1. */
  lemma AcknowledgedThenWritten(t: map<Addr, ClientState>, addr: Addr, d: seq<byte>, payloads: seq<seq<byte>>,
                                fss: seq<Oracle>)
    requires 4 <= |d| && |fss| == 1 + |payloads| && WritesSucceed(fss[1..])
    requires Serve(t, addr, |d|, d, fss[0]) == Served(t[addr := Writing([])], Some(Ack(0)))
    ensures Run(t, addr, [d] + Datas(1, payloads), fss)
            == Trace(t[addr := Writing(Concat(payloads))], [Some(Ack(0))] + AckSent(1, |payloads|))
  {
    var t' := t[addr := Writing([])];
    WritingRun(t', addr, [], payloads, 1, fss[1..]);
    WrittenFromEmpty(t, addr, payloads);
    RunFrom(t, addr, d, Datas(1, payloads), fss, Served(t', Some(Ack(0))),
            Trace(t[addr := Writing(Concat(payloads))], AckSent(1, |payloads|)));
  }

  // ---------------------------------------------------------------------
  // The same transfers through the reused receive buffer

  /** The datagrams `ds`, all from `addr`, the file system answering the `i`th as `fss[i]` says. */
  function From(addr: Addr, ds: seq<seq<byte>>, fss: seq<Oracle>): (r: seq<Arrival>)
    requires |fss| == |ds|
    ensures |r| == |ds| && forall i :: 0 <= i < |ds| ==> r[i] == Arrival(addr, ds[i], fss[i])
  {
    seq(|ds|, i requires 0 <= i < |ds| => Arrival(addr, ds[i], fss[i]))
  }

  /**
   * When every datagram carries its whole request, what earlier datagrams
   * left in the buffer changes nothing: the loop serves them as `Run` does.
   */
  lemma {:induction false} ListenAsRun(t: map<Addr, ClientState>, addr: Addr, buf: seq<byte>, ds: seq<seq<byte>>,
                                       fss: seq<Oracle>)
    requires |buf| == BodyMaxSize && |fss| == |ds| && forall i :: 0 <= i < |ds| ==> Whole(ds[i])
    ensures forall i :: 0 <= i < |ds| ==> 4 <= |ds[i]|
    ensures Listen(t, buf, From(addr, ds, fss)) == Run(t, addr, ds, fss)
    decreases |ds|
  {
    if ds != [] {
      var d := ds[0];
      ServeReceived(t, addr, buf, d, fss[0]);
      var s := Serve(t, addr, |d|, d, fss[0]);
      ListenAsRun(s.table, addr, Receive(buf, d), ds[1..], fss[1..]);
      assert From(addr, ds, fss)[1..] == From(addr, ds[1..], fss[1..]);
    }
  }

  /** ACKs are whole requests. */
  lemma AcksWhole(j: nat, k: nat)
    ensures forall i :: 0 <= i < k ==> Whole(Acks(j, k)[i])
  {
    forall i | 0 <= i < k
      ensures Whole(Acks(j, k)[i])
    {
      DataAckWhole(Response(OpAck, (j + i) % 65536, []));
    }
  }

  /** DATA packets whose payloads fit the buffer are whole requests. */
  lemma DatasWhole(j: nat, payloads: seq<seq<byte>>)
    requires forall i :: 0 <= i < |payloads| ==> 4 + |payloads[i]| <= BodyMaxSize
    ensures forall i :: 0 <= i < |payloads| ==> Whole(Datas(j, payloads)[i])
  {
    forall i | 0 <= i < |payloads|
      ensures Whole(Datas(j, payloads)[i])
    {
      DataAckWhole(Response(OpData, (j + i) % 65536, payloads[i]));
    }
  }

  /** A request followed by whole requests, all whole. */
  lemma AllWhole(d: seq<byte>, ds: seq<seq<byte>>)
    requires Whole(d) && forall i :: 0 <= i < |ds| ==> Whole(ds[i])
    ensures forall i :: 0 <= i < |[d] + ds| ==> Whole(([d] + ds)[i])
  {
    forall i | 0 <= i < |[d] + ds|
      ensures Whole(([d] + ds)[i])
    {
      if 0 < i {
        assert ([d] + ds)[i] == ds[i - 1];
      }
    }
  }

  /** `ReadSession` through the receive loop, whatever the buffer held before. */
  lemma ReadSessionInBuffer(t: map<Addr, ClientState>, addr: Addr, buf: seq<byte>, name: seq<byte>, fss: seq<Oracle>)
    requires Current(t, addr) == Fresh && 0 !in name
    requires 0 < |fss| && fss[0].open == Done && |fss| == 1 + |Blocks(fss[0].content)| && ReadsSucceed(fss)
    requires |buf| == BodyMaxSize && |TransferRequest(OpRrq, name, Octet)| <= BodyMaxSize
    ensures var k := |Blocks(fss[0].content)|;
            Listen(t, buf, From(addr, [TransferRequest(OpRrq, name, Octet)] + Acks(1, k), fss))
            == Trace(t - {addr}, DataSent(1, Blocks(fss[0].content)) + [None])
  {
    var rrq := TransferRequest(OpRrq, name, Octet);
    var acks := Acks(1, |Blocks(fss[0].content)|);
    OctetHasNoNul();
    TransferRequestWhole(OpRrq, name, Octet);
    AcksWhole(1, |Blocks(fss[0].content)|);
    AllWhole(rrq, acks);
    ReadSession(t, addr, name, fss);
    ListenAsRun(t, addr, buf, [rrq] + acks, fss);
  }

  /** `WriteSession` through the receive loop, for payloads that fit the buffer. */
  lemma WriteSessionInBuffer(t: map<Addr, ClientState>, addr: Addr, buf: seq<byte>, name: seq<byte>,
                             payloads: seq<seq<byte>>, fss: seq<Oracle>)
    requires Current(t, addr) == Fresh && 0 !in name
    requires |fss| == 1 + |payloads| && fss[0].stat == Failed(NotFound) && fss[0].open == Done
    requires WritesSucceed(fss[1..])
    requires |buf| == BodyMaxSize && |TransferRequest(OpWrq, name, Octet)| <= BodyMaxSize
    requires forall i :: 0 <= i < |payloads| ==> 4 + |payloads[i]| <= BodyMaxSize
    ensures Listen(t, buf, From(addr, [TransferRequest(OpWrq, name, Octet)] + Datas(1, payloads), fss))
            == Trace(t[addr := Writing(Concat(payloads))], [Some(Ack(0))] + AckSent(1, |payloads|))
  {
    var wrq := TransferRequest(OpWrq, name, Octet);
    OctetHasNoNul();
    TransferRequestWhole(OpWrq, name, Octet);
    DatasWhole(1, payloads);
    AllWhole(wrq, Datas(1, payloads));
    WriteSession(t, addr, name, payloads, fss);
    ListenAsRun(t, addr, buf, [wrq] + Datas(1, payloads), fss);
  }

  /**
   * Two new clients send the same WRQ. The first creates the file, so when
   * the second's arrives the path exists: the first gets ACK 0 and the
   * second is refused with code 6, each through the receive loop.
   */
  lemma SecondWriterRefused(t: map<Addr, ClientState>, a: Addr, b: Addr, buf: seq<byte>, name: seq<byte>,
                            first: Oracle, second: Oracle)
    requires a != b && Current(t, a) == Fresh && Current(t, b) == Fresh && 0 !in name
    requires first.stat == Failed(NotFound) && first.open == Done && second.stat == Done
    requires |buf| == BodyMaxSize && |TransferRequest(OpWrq, name, Octet)| <= BodyMaxSize
    ensures var wrq := TransferRequest(OpWrq, name, Octet);
            Listen(t, buf, [Arrival(a, wrq, first), Arrival(b, wrq, second)]).sent
            == [Some(Ack(0)), Some(Refusal(FileAlreadyExists))]
  {
    var wrq := TransferRequest(OpWrq, name, Octet);
    OctetHasNoNul();
    TransferRequestWhole(OpWrq, name, Octet);
    var arrivals := [Arrival(a, wrq, first), Arrival(b, wrq, second)];
    var t1 := t[a := Writing([])];
    var buf1 := Receive(buf, wrq);
    ServeReceived(t, a, buf, wrq, first);
    WrqAcknowledged(t, a, name, first);
    ServeReceived(t1, b, buf1, wrq, second);
    WrqOverExistingRefused(t1, b, name, second);
    var s2 := Serve(t1, b, |wrq|, wrq, second);
    ListenStep(t, buf, arrivals, buf1, Served(t1, Some(Ack(0))));
    ListenStep(t1, buf1, arrivals[1..], Receive(buf1, wrq), s2);
    assert arrivals[1..][1..] == [];
  }
}
