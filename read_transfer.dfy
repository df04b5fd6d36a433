/** The read side of the server: once an RRQ is accepted, the file is sent
    in chunks of at most 512 bytes, each in a DATA packet, in lockstep with
    the client's ACKs. The loop only ends when the file is exhausted; an
    unexpected reply sends the NEXT chunk under the SAME block number, and
    nothing is ever resent. */
module ReadTransfer {
  import opened Codec

  /** What happens to the DATA packet of one loop iteration: the send can
      fail (nothing is awaited then), or the packet goes out and either the
      receive of the reply fails or a datagram comes back. The sender of the
      reply is not checked. */
  datatype Exchange =
    | SendFailed
    | ReceiveFailed
    | Reply(datagram: seq<byte>)

  /** Returned: the loop ended and the server goes back to its main loop.
      Blocked: the server has sent the next DATA packet and waits for a
      reply that the given exchanges do not supply (there is no timeout). */
  datatype Outcome = Returned | Blocked

  /** The DATA packets sent, in order, and how the loop ended. */
  datatype Transfer = Transfer(sent: seq<seq<byte>>, outcome: Outcome)

  /** Bytes delivered by one file read into a 512-byte buffer. */
  function ChunkLength(remaining: nat): (n: nat)
    ensures n <= BlockSize && n <= remaining
    ensures remaining > 0 ==> n > 0
    ensures n < BlockSize ==> n == remaining
  {
    if remaining < BlockSize then remaining else BlockSize
  }

  /** The reply acknowledges block `bn`: opcode 4 and a block field equal to
      `bn`, compared as an unbounded integer. Trailing bytes are ignored. */
  function AcksBlock(d: seq<byte>, bn: nat): (r: bool)
    ensures r <==> |d| >= 4 && d[0] == 0 && d[1] as int == ACK && d[2] as int * 256 + d[3] as int == bn
  {
    Int16At(d, 0).Some? && Int16At(d, 0).value.value == ACK &&
    Int16At(d, 2).Some? && Int16At(d, 2).value.value == bn
  }

  /** A DATA packet as the loop builds it: opcode 3 and a payload of one to
      512 bytes. */
  predicate IsDataPacket(p: seq<byte>)
  {
    4 < |p| <= 4 + BlockSize && Int16At(p, 0) == Some(Decoded(DATA, 2))
  }

  /** The read loop on the unsent part `rest` of the file, current block
      number `bn`, and the exchanges of the iterations still to come. */
  function ReadLoop(rest: seq<byte>, bn: nat, ex: seq<Exchange>): (t: Transfer)
    decreases |rest|
    ensures |t.sent| <= |ex| + 1
    ensures rest == [] ==> t == Transfer([], Returned)
    ensures t.outcome == Blocked ==> t.sent != []
  {
    if rest == [] then Transfer([], Returned)
    else if ex == [] then Transfer([DataPacket(bn, rest[..ChunkLength(|rest|)])], Blocked)
    else
      var n := ChunkLength(|rest|);
      var next := if ex[0].Reply? && AcksBlock(ex[0].datagram, bn) then bn + 1 else bn;
      var t := ReadLoop(rest[n..], next, ex[1..]);
      if ex[0].SendFailed? then t
      else Transfer([DataPacket(bn, rest[..n])] + t.sent, t.outcome)
  }

  /** `t` preceded by the packets already sent. */
  function After(sent: seq<seq<byte>>, t: Transfer): Transfer
  {
    Transfer(sent + t.sent, t.outcome)
  }

  lemma AfterAppend(sent: seq<seq<byte>>, p: seq<byte>, t: Transfer)
    ensures After(sent, Transfer([p] + t.sent, t.outcome)) == After(sent + [p], t)
  {
    assert sent + ([p] + t.sent) == (sent + [p]) + t.sent;
  }

  /** One iteration of the loop, unfolded. */
  lemma ReadLoopStep(rest: seq<byte>, bn: nat, ex: seq<Exchange>)
    requires rest != [] && ex != []
    ensures var n := ChunkLength(|rest|);
      var next := if ex[0].Reply? && AcksBlock(ex[0].datagram, bn) then bn + 1 else bn;
      var t := ReadLoop(rest[n..], next, ex[1..]);
      ReadLoop(rest, bn, ex) ==
        if ex[0].SendFailed? then t else Transfer([DataPacket(bn, rest[..n])] + t.sent, t.outcome)
  {
  }

  /** One iteration of the loop, phrased on the loop's own variables. */
  lemma ServeReadStep(contents: seq<byte>, offset: nat, bn: nat, exchanges: seq<Exchange>, k: nat, sent: seq<seq<byte>>)
    requires offset < |contents| && k < |exchanges|
    ensures var n := ChunkLength(|contents| - offset);
      var e := exchanges[k];
      var next := if e.Reply? && AcksBlock(e.datagram, bn) then bn + 1 else bn;
      var sent' := if e.SendFailed? then sent else sent + [DataPacket(bn, contents[offset..offset + n])];
      After(sent, ReadLoop(contents[offset..], bn, exchanges[k..])) ==
        After(sent', ReadLoop(contents[offset + n..], next, exchanges[k + 1..]))
  {
    var rest := contents[offset..];
    var ex := exchanges[k..];
    var n := ChunkLength(|contents| - offset);
    ReadLoopStep(rest, bn, ex);
    assert rest[n..] == contents[offset + n..] && rest[..n] == contents[offset..offset + n];
    assert ex[1..] == exchanges[k + 1..];
    var e := exchanges[k];
    var next := if e.Reply? && AcksBlock(e.datagram, bn) then bn + 1 else bn;
    if !e.SendFailed? {
      AfterAppend(sent, DataPacket(bn, rest[..n]), ReadLoop(rest[n..], next, ex[1..]));
    }
  }

  /** The iteration the exchanges run out in, on the loop's own variables. */
  lemma ServeReadBlocks(contents: seq<byte>, offset: nat, bn: nat, exchanges: seq<Exchange>, k: nat, sent: seq<seq<byte>>)
    requires offset < |contents| && k == |exchanges|
    ensures var n := ChunkLength(|contents| - offset);
      After(sent, ReadLoop(contents[offset..], bn, exchanges[k..])) ==
        Transfer(sent + [DataPacket(bn, contents[offset..offset + n])], Blocked)
  {
    var rest := contents[offset..];
    assert exchanges[k..] == [];
    ExhaustedLoop(rest, bn);
    assert rest[..ChunkLength(|rest|)] == contents[offset..offset + ChunkLength(|rest|)];
  }

  /** Decoding of the reply inside the loop: an ACK carrying `bn` moves the
      loop on; anything else (a short datagram, another opcode, another block
      number) is only reported. */
  method IsAckFor(d: seq<byte>, bn: nat) returns (acked: bool)
    ensures acked <==> AcksBlock(d, bn)
  {
    var msg := new TftpReader(d);
    var msgType := msg.ReadInt16();
    if msgType.None? || msgType.value != ACK {
      return false;
    }
    var ackBlockNumber := msg.ReadInt16();
    if ackBlockNumber.None? || ackBlockNumber.value != bn {
      return false;
    }
    return true;
  }

  // ---------------------------------------------------------------------
  // The loop itself.
  // ---------------------------------------------------------------------

  /** The send/acknowledge loop of an accepted RRQ over a file with the
      given contents, starting at block 1. */
  method ServeRead(contents: seq<byte>, exchanges: seq<Exchange>) returns (sent: seq<seq<byte>>, outcome: Outcome)
    ensures Transfer(sent, outcome) == ReadLoop(contents, 1, exchanges)
  {
    var offset := 0;
    var blockNumber := 1;
    var k := 0;
    sent := [];
    while offset < |contents|
      invariant 0 <= offset <= |contents| && 0 <= k <= |exchanges|
      invariant ReadLoop(contents, 1, exchanges) ==
        After(sent, ReadLoop(contents[offset..], blockNumber, exchanges[k..]))
      decreases |contents| - offset
    {
      // file.Read into a 512-byte buffer
      var n := ChunkLength(|contents| - offset);
      var chunk := contents[offset..offset + n];
      if k == |exchanges| {
        // the packet goes out, and no reply ever comes back
        ServeReadBlocks(contents, offset, blockNumber, exchanges, k, sent);
        return sent + [DataPacket(blockNumber, chunk)], Blocked;
      }
      var e := exchanges[k];
      ServeReadStep(contents, offset, blockNumber, exchanges, k, sent);
      offset := offset + n;
      k := k + 1;
      if e.SendFailed? {
        continue;
      }
      sent := sent + [DataPacket(blockNumber, chunk)];
      if e.ReceiveFailed? {
        continue;
      }
      var acked := IsAckFor(e.datagram, blockNumber);
      if !acked {
        continue;
      }
      blockNumber := blockNumber + 1;
    }
    outcome := Returned;
  }

  // ---------------------------------------------------------------------
  // What the loop delivers.
  // ---------------------------------------------------------------------

  /** The file cut into the chunks successive reads return: every chunk
      holds one to 512 bytes and all but the last exactly 512, so a file
      whose length is a multiple of 512 gets no empty final chunk and an
      empty file gets no chunk at all. */
  function Blocks(c: seq<byte>): (bs: seq<seq<byte>>)
    decreases |c|
    ensures forall i :: 0 <= i < |bs| ==> 0 < |bs[i]| <= BlockSize
    ensures forall i :: 0 <= i < |bs| - 1 ==> |bs[i]| == BlockSize
    ensures |bs| == (|c| + BlockSize - 1) / BlockSize
  {
    if c == [] then [] else [c[..ChunkLength(|c|)]] + Blocks(c[ChunkLength(|c|)..])
  }

  function Concat(bs: seq<seq<byte>>): seq<byte>
  {
    if bs == [] then [] else bs[0] + Concat(bs[1..])
  }

  /** The payload of each packet, after its four header bytes. */
  function Payloads(ps: seq<seq<byte>>): seq<seq<byte>>
  {
    seq(|ps|, i requires 0 <= i < |ps| => if |ps[i]| >= 4 then ps[i][4..] else [])
  }

  /** Consecutive DATA packets carrying the given chunks, the first under
      block `bn`. */
  function DataPackets(bn: nat, bs: seq<seq<byte>>): (ps: seq<seq<byte>>)
    ensures |ps| == |bs|
    decreases |bs|
  {
    if bs == [] then [] else [DataPacket(bn, bs[0])] + DataPackets(bn + 1, bs[1..])
  }

  predicate NoSendFailure(ex: seq<Exchange>)
  {
    forall i :: 0 <= i < |ex| ==> !ex[i].SendFailed?
  }

  /** Reassembling the chunks gives back the file. */
  lemma {:induction false} BlocksConcat(c: seq<byte>)
    ensures Concat(Blocks(c)) == c
    decreases |c|
  {
    if c != [] {
      var n := ChunkLength(|c|);
      BlocksConcat(c[n..]);
      assert c == c[..n] + c[n..];
    }
  }

  /** The loop returns exactly when there is one exchange for every chunk;
      with fewer it waits for ever. */
  lemma {:induction false} ReadLoopReturns(rest: seq<byte>, bn: nat, ex: seq<Exchange>)
    ensures ReadLoop(rest, bn, ex).outcome == Returned <==> |ex| >= |Blocks(rest)|
    decreases |rest|
  {
    if rest != [] && ex != [] {
      var n := ChunkLength(|rest|);
      var next := if ex[0].Reply? && AcksBlock(ex[0].datagram, bn) then bn + 1 else bn;
      ReadLoopReturns(rest[n..], next, ex[1..]);
    }
  }

  /** When no send fails and the loop returns, the packets carry the file's
      chunks in file order, one packet per chunk. */
  lemma {:induction false} ReadLoopSendsChunks(rest: seq<byte>, bn: nat, ex: seq<Exchange>)
    requires NoSendFailure(ex) && ReadLoop(rest, bn, ex).outcome == Returned
    ensures Payloads(ReadLoop(rest, bn, ex).sent) == Blocks(rest)
    decreases |rest|
  {
    if rest != [] {
      var n := ChunkLength(|rest|);
      var next := if ex[0].Reply? && AcksBlock(ex[0].datagram, bn) then bn + 1 else bn;
      ReadLoopStep(rest, bn, ex);
      var t := ReadLoop(rest[n..], next, ex[1..]);
      assert NoSendFailure(ex[1..]) by {
        forall i | 0 <= i < |ex| - 1 ensures !ex[1..][i].SendFailed? {
          assert ex[1..][i] == ex[i + 1];
        }
      }
      ReadLoopSendsChunks(rest[n..], next, ex[1..]);
      PayloadsCons(DataPacket(bn, rest[..n]), t.sent);
    }
  }

  lemma PayloadsCons(p: seq<byte>, ps: seq<seq<byte>>)
    requires |p| >= 4
    ensures Payloads([p] + ps) == [p[4..]] + Payloads(ps)
  {
    var l := Payloads([p] + ps);
    var r := [p[4..]] + Payloads(ps);
    forall i | 0 <= i < |l| ensures l[i] == r[i] {
      if i > 0 {
        assert ([p] + ps)[i] == ps[i - 1];
      }
    }
  }

  /** Every packet sent is a DATA packet with one to 512 bytes of payload. */
  lemma {:induction false} ReadLoopSendsDataPackets(rest: seq<byte>, bn: nat, ex: seq<Exchange>)
    ensures forall i :: 0 <= i < |ReadLoop(rest, bn, ex).sent| ==> IsDataPacket(ReadLoop(rest, bn, ex).sent[i])
    decreases |rest|
  {
    if rest != [] && ex != [] {
      var n := ChunkLength(|rest|);
      var next := if ex[0].Reply? && AcksBlock(ex[0].datagram, bn) then bn + 1 else bn;
      ReadLoopSendsDataPackets(rest[n..], next, ex[1..]);
    }
  }

  /** A completed read transfer without send failures delivers the whole
      file: the payloads, concatenated, are the file, and there is one packet
      per 512 bytes or part of them. */
  lemma ReadDeliversFile(contents: seq<byte>, ex: seq<Exchange>)
    requires NoSendFailure(ex) && |ex| >= |Blocks(contents)|
    ensures ReadLoop(contents, 1, ex).outcome == Returned
    ensures Concat(Payloads(ReadLoop(contents, 1, ex).sent)) == contents
    ensures |ReadLoop(contents, 1, ex).sent| == (|contents| + BlockSize - 1) / BlockSize
  {
    ReadLoopReturns(contents, 1, ex);
    ReadLoopSendsChunks(contents, 1, ex);
    BlocksConcat(contents);
  }

  /** One lock-step iteration: the reply acknowledges the block just sent,
      so the loop moves to the next chunk under the next block number. */
  lemma AckedStep(rest: seq<byte>, bn: nat, ex: seq<Exchange>)
    requires rest != [] && ex != [] && bn < FieldRange && ex[0] == Reply(AckPacket(bn))
    ensures var n := ChunkLength(|rest|);
      var t := ReadLoop(rest[n..], bn + 1, ex[1..]);
      ReadLoop(rest, bn, ex) == Transfer([DataPacket(bn, rest[..n])] + t.sent, t.outcome)
  {
    assert AcksBlock(ex[0].datagram, bn);
    ReadLoopStep(rest, bn, ex);
  }

  /** The replies of a client that acknowledges k blocks in turn, the first
      being block `bn`. */
  function AckReplies(bn: nat, k: nat): (ex: seq<Exchange>)
    ensures |ex| == k
    decreases k
  {
    if k == 0 then [] else [Reply(AckPacket(bn))] + AckReplies(bn + 1, k - 1)
  }

  /** The chunks of a non-empty file are its first chunk followed by the
      chunks of the remainder, and likewise for their DATA packets. */
  lemma BlocksStep(rest: seq<byte>, bn: nat)
    requires rest != []
    ensures var n := ChunkLength(|rest|);
      |Blocks(rest)| == 1 + |Blocks(rest[n..])| &&
      DataPackets(bn, Blocks(rest)) == [DataPacket(bn, rest[..n])] + DataPackets(bn + 1, Blocks(rest[n..]))
  {
    var n := ChunkLength(|rest|);
    var bs := Blocks(rest);
    assert bs == [rest[..n]] + Blocks(rest[n..]);
    assert bs[0] == rest[..n] && bs[1..] == Blocks(rest[n..]);
  }

  /** The first lock-step iteration, on the replies AckReplies describes. */
  lemma AckRepliesStep(rest: seq<byte>, bn: nat, k: nat)
    requires rest != [] && k > 0 && bn < FieldRange
    ensures var n := ChunkLength(|rest|);
      var t := ReadLoop(rest[n..], bn + 1, AckReplies(bn + 1, k - 1));
      ReadLoop(rest, bn, AckReplies(bn, k)) == Transfer([DataPacket(bn, rest[..n])] + t.sent, t.outcome)
  {
    var ex := AckReplies(bn, k);
    assert ex == [Reply(AckPacket(bn))] + AckReplies(bn + 1, k - 1);
    assert ex[1..] == AckReplies(bn + 1, k - 1);
    AckedStep(rest, bn, ex);
  }

  /** When the client acknowledges every block in turn, packet i carries
      block bn + i and the i-th chunk, as long as no block number passes
      65535. */
  lemma {:induction false} LockstepTransfer(rest: seq<byte>, bn: nat)
    requires bn + |Blocks(rest)| <= FieldRange
    ensures ReadLoop(rest, bn, AckReplies(bn, |Blocks(rest)|)) == Transfer(DataPackets(bn, Blocks(rest)), Returned)
    decreases |rest|
  {
    if rest != [] {
      var n := ChunkLength(|rest|);
      BlocksStep(rest, bn);
      AckRepliesStep(rest, bn, |Blocks(rest)|);
      LockstepTransfer(rest[n..], bn + 1);
    }
  }

  /** A 1024-byte file goes out as exactly two full DATA packets, blocks 1
      and 2, and the transfer ends after the second ACK: a file whose length
      is a multiple of 512 gets no empty final block. */
  lemma TwoBlockFile(contents: seq<byte>)
    requires |contents| == 2 * BlockSize
    ensures ReadLoop(contents, 1, AckReplies(1, 2)) ==
      Transfer([DataPacket(1, contents[..BlockSize]), DataPacket(2, contents[BlockSize..])], Returned)
  {
    var rest := contents[BlockSize..];
    assert Blocks(contents) == [contents[..BlockSize]] + Blocks(rest);
    assert Blocks(rest) == [rest[..BlockSize]] + Blocks(rest[BlockSize..]);
    assert rest[..BlockSize] == rest && rest[BlockSize..] == [];
    LockstepTransfer(contents, 1);
    assert DataPackets(1, Blocks(contents)) == [DataPacket(1, contents[..BlockSize])] + DataPackets(2, [rest]);
  }

  /** With no exchange left, the next packet goes out and the server
      waits. */
  lemma ExhaustedLoop(rest: seq<byte>, bn: nat)
    requires rest != []
    ensures ReadLoop(rest, bn, []) == Transfer([DataPacket(bn, rest[..ChunkLength(|rest|)])], Blocked)
  {
  }

  /** Two chunks left and a client that acknowledges only the first: the
      second still goes out, and the server then waits for its ACK. */
  lemma WaitAfterLastPacket(rest: seq<byte>, bn: nat, ex: seq<Exchange>)
    requires BlockSize < |rest| <= 2 * BlockSize && bn < FieldRange
    requires ex == [Reply(AckPacket(bn))]
    ensures ReadLoop(rest, bn, ex) ==
      Transfer([DataPacket(bn, rest[..BlockSize]), DataPacket(bn + 1, rest[BlockSize..])], Blocked)
  {
    var last := rest[BlockSize..];
    AckedStep(rest, bn, ex);
    assert ex[1..] == [];
    ExhaustedLoop(last, bn + 1);
    assert last[..ChunkLength(|last|)] == last;
  }

  /** An unexpected reply does not advance the block number and the chunk
      is not resent: the next packet carries the NEXT chunk under the SAME
      block number. */
  lemma MismatchKeepsBlockNumber(rest: seq<byte>, bn: nat, d: seq<byte>, e: Exchange, ex: seq<Exchange>)
    requires |rest| > BlockSize && !AcksBlock(d, bn) && !e.SendFailed?
    ensures var t := ReadLoop(rest, bn, [Reply(d), e] + ex);
      |t.sent| >= 2 &&
      t.sent[0] == DataPacket(bn, rest[..BlockSize]) &&
      t.sent[1] == DataPacket(bn, rest[BlockSize..][..ChunkLength(|rest| - BlockSize)])
  {
    var ex0 := [Reply(d), e] + ex;
    assert ex0[1..] == [e] + ex;
    assert ([e] + ex)[1..] == ex;
  }

  /** Once the block number passes 65535 no ACK can match it (the field is
      16 bits, the comparison unbounded), so every later packet carries the
      same block field. */
  lemma {:induction false} BlockNumberStuck(rest: seq<byte>, bn: nat, ex: seq<Exchange>)
    requires bn >= FieldRange
    ensures forall i :: 0 <= i < |ReadLoop(rest, bn, ex).sent| ==>
      Int16At(ReadLoop(rest, bn, ex).sent[i], 2) == Some(Decoded(bn % FieldRange, 4))
    decreases |rest|
  {
    if rest != [] && ex != [] {
      var n := ChunkLength(|rest|);
      assert ex[0].Reply? ==> !AcksBlock(ex[0].datagram, bn);
      BlockNumberStuck(rest[n..], bn, ex[1..]);
    }
  }
}
