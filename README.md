# A TFTP server, modelled in Dafny

The system is a small TFTP server (RFC 1350) in a single Go file. It listens
on one UDP socket and handles datagrams one at a time:

- a read request (RRQ) streams the named file back in DATA packets of at most
  512 bytes, each waiting for its ACK;
- a write request (WRQ) opens a write session, after which every DATA packet
  is appended to the file and acknowledged;
- anything else is dropped.

The model has three modules, one per part of the core:

- `Codec` (`codec.dfy`) holds the wire codec. `TftpReader` is a class with
  a cursor over one datagram. Its methods `ReadByte`, `Read`, `ReadInt16` and
  `ReadNullTerminatedString` are each proved against a pure specification of
  the field they decode (`Int16At`, `StringAt`). The module also holds the
  encoders of the ACK and DATA packets the server sends. Round-trip lemmas
  relate these encoders, and a client-side request encoder, to the decoders.
- `ReadTransfer` (`read_transfer.dfy`) holds the send/acknowledge loop of an
  RRQ. `ServeRead` keeps the loop's variables: offset, block number and the
  packets sent. It is proved equal to the recursive specification `ReadLoop`.
  Lemmas about `ReadLoop` cover these facts:
  - when the loop returns;
  - that it delivers the file chunk by chunk;
  - what a client in lock-step sees;
  - how a mismatched or overflowing block number behaves.
- `Session` (`session.dfy`) holds the main loop. `Server` is a class with the
  loop-carried variables `transmissionInProgress`, `hideDataMessages`,
  `filename` and `file`. `Server.Step` handles one datagram with a
  `TftpReader`, as the loop body does, except as listed under "Left out".
  It is proved equal to the specification `Next`, which keeps the invariant
  "logging is only quieted during a write". `Run` folds `Next` over a sequence of datagrams. Lemmas
  about it state what a whole upload produces.

The outside world becomes parameters, because the model has no I/O. What
happens while one datagram is handled is an `Env`:

- whether creating, writing and reading back the file succeed;
- whether sending the reply succeeds;
- the contents of the file an RRQ names, or None when it cannot be opened;
- the exchanges of an RRQ's loop.

Each iteration of the read loop consumes one `Exchange`: the send failed,
the receive failed, or a reply datagram came back. When the file is not
exhausted and no exchange is left, the server sends the next DATA packet and
then waits forever for its reply. That outcome is `Blocked`, and the packet
sent just before the wait is the last one in `sent`.

Quirks of `main.go` that the model keeps, some of which depart from
RFC 1350:

- A file whose length is a multiple of 512 bytes gets no empty final DATA
  packet. The loop stops at the read that reports end of file. A 1024-byte
  file therefore goes out as two packets, not the three RFC 1350 calls for
  (`ReadTransfer.TwoBlockFile`).
- The mode field is never checked. A mode other than "octet" is only
  reported, and the request is served anyway.
- A WRQ marks the session in progress and records the name before the file
  is created. A failed create therefore leaves a session that no DATA can
  complete and that refuses every later WRQ (`Session.FailedCreateStalls`,
  `Session.FailedCreateStallsForever`).
- An ACK in the main loop is dropped like an unknown opcode. Inside the read
  loop, bytes after an ACK's block number are ignored, not rejected.
- An RRQ does not look at the write session, and it can run while a write is
  in progress.
- A DATA packet with an empty payload is not written and not acknowledged:
  reading an empty remainder reports end of data. Its block number can still
  switch the logging flag on.

One quirk the model does not keep: a file read error other than end of file
does not abort the source's read loop, which simply reads again. The model's
reads always succeed (see "Left out").

## Model

| member | source | states |
|---|---|---|
| Codec.Int16At | main.go:33-43 | a 16-bit field decodes exactly when two bytes remain; its value is in 0..65535 and the cursor moves by two |
| Codec.NextZero | main.go:47-54 | finds the first zero byte at or after the cursor; None exactly when there is none |
| Codec.StringAt | main.go:45-58 | a string field decodes exactly when a zero byte follows; the value is the bytes before the first zero, as characters, and the cursor lands just past the zero |
| Codec.Chars | main.go:55 | each byte is appended as the character with the same code point |
| Codec.FirstZero | main.go:47-54 | a zero with no zero before it is where the string field ends |
| Codec.CharsAppend | main.go:55 | appending one character per byte distributes over concatenation |
| Codec.TftpReader.constructor | main.go:60-62 | a new reader is at the start of the datagram |
| Codec.TftpReader.ReadByte | main.go:25-27 | the next byte and a one-step move, or end of data with no move |
| Codec.TftpReader.Read | main.go:29-31 | end of data when nothing is left, even for an empty buffer; otherwise the next min(n, remaining) bytes |
| Codec.TftpReader.ReadInt16 | main.go:33-43 | returns Int16At at the cursor and moves past it; on a short buffer, fails with the cursor at the end |
| Codec.TftpReader.ReadNullTerminatedString | main.go:45-58 | returns StringAt at the cursor and moves past the terminator; with no terminator, fails with the cursor at the end |
| Codec.ByteSplit | main.go:150 | taking the high and low bytes of n gives the same bytes as taking them of n truncated to 16 bits |
| Codec.Hi | main.go:150 | byte(n>>8) is the high byte of the block number truncated to 16 bits |
| Codec.Lo | main.go:300 | byte(n) is the low byte of the block number truncated to 16 bits |
| Codec.HiLo | main.go:150 | the two bytes byte(n>>8), byte(n) read big-endian give n modulo 65536 |
| Codec.AckPacket | main.go:300 | an ACK is four bytes that decode to opcode 4 and the block number modulo 65536 |
| Codec.DataPacket | main.go:150 | a DATA packet decodes to opcode 3 and the block number modulo 65536, followed by the payload unchanged |
| Codec.AckReencode | main.go:300 | decoding an ACK's block number and encoding it again gives the same packet |
| Codec.FieldBytes | main.go:45-58 | a string field's encoding is its characters as bytes followed by one zero |
| Codec.CharsOfField | main.go:45-58 | decoding a field's bytes without the terminator gives back the field |
| Codec.RequestPacket | main.go:99-103 | a request packet decodes to its opcode |
| Codec.StringFieldRoundTrip | main.go:45-58 | an encoded string field decodes to the string and moves past its terminator, whatever surrounds it |
| Codec.RequestRoundTrip | main.go:108-120 | the filename and the mode of an encoded request both decode to what was encoded |
| ReadTransfer.ChunkLength | main.go:139-149 | one read returns at most 512 bytes and at most what is left; it returns less than 512 only for the last chunk, and never 0 while bytes remain |
| ReadTransfer.AcksBlock | main.go:168-188 | a reply acknowledges the current block exactly when it has at least four bytes, opcode bytes 0 and 4, and a big-endian block field equal to the block number; trailing bytes are ignored |
| ReadTransfer.ReadLoop | main.go:136-190 | the loop sends at most one packet per exchange, plus the one it then waits on; it returns at once on an empty file; a loop that blocks has sent at least the packet it waits on |
| ReadTransfer.ExhaustedLoop | main.go:138-160 | with no exchange left, the next chunk's DATA packet goes out and the server waits |
| ReadTransfer.WaitAfterLastPacket | main.go:138-189 | with two chunks left and only the first ACKed, both DATA packets go out, block numbers bn and bn+1, then the server waits |
| ReadTransfer.ReadLoopStep | main.go:138-189 | one iteration: a failed send skips the chunk; otherwise its DATA packet is sent; only a matching ACK advances the block number |
| ReadTransfer.ServeReadStep | main.go:138-189 | the same iteration, in terms of the loop's offset, block number, exchange index and sent packets |
| ReadTransfer.IsAckFor | main.go:166-188 | a reply moves the loop on exactly when it decodes to opcode 4 and a block field equal to the current block number |
| ReadTransfer.ServeRead | main.go:136-191 | the loop sends exactly the packets ReadLoop gives and ends the same way, including the packet sent before a wait that never ends |
| ReadTransfer.ServeReadBlocks | main.go:138-160 | the iteration in which the exchanges run out sends its packet and blocks, in terms of the loop's variables |
| ReadTransfer.AfterAppend | main.go:152 | recording one more sent packet commutes with the rest of the transfer |
| ReadTransfer.Blocks | main.go:138-149 | the file is cut into chunks of 1 to 512 bytes, all full but the last, ceil(len/512) of them, with no empty final chunk |
| ReadTransfer.DataPackets | main.go:150 | one DATA packet per chunk, block numbers counting up |
| ReadTransfer.BlocksConcat | main.go:138-149 | the chunks, concatenated, are the file |
| ReadTransfer.BlocksStep | main.go:138-150 | the first chunk, followed by the chunks of the rest, gives the same packets under consecutive block numbers |
| ReadTransfer.ReadLoopReturns | main.go:136-191 | the loop gets back to the main loop if and only if there is one exchange per chunk; otherwise the server waits forever |
| ReadTransfer.ReadLoopSendsChunks | main.go:138-190 | with no failed send and a loop that returns, the payloads of the packets sent are the file's chunks, in order |
| ReadTransfer.PayloadsCons | main.go:150 | the payloads of a packet list are the first packet's bytes after its header, followed by the payloads of the rest |
| ReadTransfer.ReadLoopSendsDataPackets | main.go:150-152 | every packet sent is a DATA packet with 1 to 512 payload bytes |
| ReadTransfer.ReadDeliversFile | main.go:136-191 | with no failed send and enough exchanges, the transfer returns and its payloads rebuild the file in ceil(len/512) packets |
| ReadTransfer.AckedStep | main.go:185-189 | an ACK for the block just sent moves the loop to the next chunk under the next block number |
| ReadTransfer.AckReplies | main.go:174-189 | a lock-step client sends k ACKs, numbered from the given block |
| ReadTransfer.AckRepliesStep | main.go:174-189 | the first ACK of a lock-step client advances the loop by one block |
| ReadTransfer.LockstepTransfer | main.go:136-191 | against a client that ACKs every block in turn, packet i carries block 1+i and chunk i, and the transfer returns |
| ReadTransfer.TwoBlockFile | main.go:138-149 | a 1024-byte file is sent as exactly two full packets, blocks 1 and 2, with no empty third packet |
| ReadTransfer.MismatchKeepsBlockNumber | main.go:174-188 | after an unexpected reply the next packet carries the NEXT chunk under the SAME block number; nothing is resent |
| ReadTransfer.BlockNumberStuck | main.go:185-189 | once the block number passes 65535 no ACK can match it, so every later packet carries the same 16-bit block field |
| Session.ReadRequest | main.go:105-191 | an RRQ never changes the write session state |
| Session.Server.constructor | main.go:82-85 | the server starts idle, with no name, no file and logging on |
| Session.Server.Step | main.go:87-307 | handling one datagram changes the server and sends exactly as Next says, and keeps the invariant |
| Session.Server.OnReadRequest | main.go:105-191 | the RRQ branch acts as ReadRequest |
| Session.Server.OnWriteRequest | main.go:193-236 | the WRQ branch acts as WriteRequest, including the session marked in progress before the create |
| Session.Server.OnData | main.go:237-304 | the DATA branch acts as DataBlock |
| Session.NextKeepsInv | main.go:253-297 | the logging flag is only ever set while a write is in progress |
| Session.Next | main.go:97-306 | one datagram: only an RRQ can keep the server from getting back to the main loop; only a WRQ or a DATA packet can change the state; a datagram shorter than two bytes, or with an opcode other than 1, 2 and 3 (ACK included), is dropped |
| Session.WriteRequest | main.go:193-236 | a WRQ always returns to the main loop; during a write it is dropped; when it changes the state it opens a session with the logging flag kept and an empty or nil file; the only reply it sends is ACK 0, and only once the file exists |
| Session.DataBlock | main.go:237-304 | DATA always returns to the main loop and keeps the name; with no write in progress it is dropped; a nil file stays nil and a file only grows; a reply is sent only after the payload was appended, and it echoes the packet's own block field |
| Session.ReadRequestServesFile | main.go:105-191 | an RRQ leaves the state alone; it sends what the read loop sends when the file opens, and nothing when it does not |
| Session.WriteRequestWhileBusy | main.go:194-197 | a WRQ during a write is dropped |
| Session.MalformedWriteRequestDropped | main.go:201-213 | a WRQ without two terminated fields is dropped |
| Session.WriteRequestAccepted | main.go:199-236 | an accepted WRQ opens the session under the requested name, whatever the mode; the file is empty, or nil if the create failed; ACK 0 is sent only when both the create and the send succeed |
| Session.DataWhileIdle | main.go:238-241 | DATA with no write in progress is dropped |
| Session.EmptyDataDropped | main.go:265-270 | DATA with no payload writes nothing, sends nothing and keeps the session open |
| Session.DataAppends | main.go:247-304 | DATA during a write appends its payload when the write succeeds; a short payload closes the session when the read-back succeeds, and closing also turns the logging flag off; the block number is echoed |
| Session.ReliableDataStep | main.go:277-304 | with no failure, DATA appends its payload, is acknowledged with its own number, and closes the session, logging flag off, exactly when the payload is short |
| Session.FailedCreateStalls | main.go:223-281 | after a failed create every DATA is dropped without a reply and the session never closes |
| Session.FailedCreateStallsForever | main.go:193-304 | after a failed create, no sequence of datagrams closes the session or gives it a file |
| Session.Run | main.go:87-308 | the main loop over successive datagrams stops for good only after an RRQ |
| Session.RunKeepsInv | main.go:87-308 | the invariant holds after any sequence of datagrams |
| Session.RunStep | main.go:87-308 | the main loop goes on after a datagram that does not block |
| Session.AckPackets | main.go:300 | one ACK per block number |
| Session.WriteBlocksTail | main.go:237-304 | the rest of a well-formed upload is a well-formed upload |
| Session.WriteSessionAssembles | main.go:237-304 | over a write session, the file is the payloads concatenated in arrival order, every block is ACKed with its own number, and the session stays open exactly when the last payload was a full block |
| Session.WriteTransfer | main.go:193-304 | a whole upload from an idle server: ACK 0, then one ACK per block; the file holds the payloads in order under the requested name |

## Left out

- UDP socket I/O is not modelled. Received datagrams are parameters, and each
  send outcome is an oracle in `Env`. A receive error in the main loop
  (main.go:89-93) only restarts the loop, so it is not modelled.
- Datagrams longer than 1024 bytes are truncated by the receive buffer
  (main.go:88). The model takes the datagram as received.
- The reply's sender address is not modelled. The read loop accepts an ACK
  from any peer, so a reply is just a datagram.
- Command-line flags, the trailing-slash fix on the folder, the startup
  banner and socket binding happen before the main loop, so they are not
  modelled.
- The file path is the folder joined to the requested name, with no
  sanitisation. The name is built by `s += string(b)` (main.go:55), which
  turns a byte of 0x80 or more into its two-byte UTF-8 encoding. The path
  handed to `os.Open` and `os.Create` (main.go:130, main.go:225) is therefore
  not the bytes that came over the wire. The model keeps the name as a string
  of code points, one per byte, and has no file system. An RRQ's file is the
  `source` field of `Env`, and a WRQ's file is the `file` field of the state.
- Logging is not modelled. `hideDataMessages` is kept only as the state
  flag it is.
- Session.DataAppends: a failed write leaves the file unchanged. The model
  does not capture a partial write.
- Session.DataAppends: the seek and read-back of the completion dump
  (main.go:284-293) are one `dumpOk` oracle. The model does not track the
  file's write offset. After a successful seek to 0 (main.go:284), a failed
  read-back (main.go:289-291) leaves the offset where the reading stopped.
  That is 0 if the first read fails. The session stays open, so the next
  DATA's write (main.go:277) overwrites the file from that offset. The model
  appends instead.
- Session.DataBlock: "a file only grows" (the payload is appended to the
  file) holds only while every completion read-back that fails does so at
  its seek. After a read-back that fails past the seek, the source
  overwrites from the offset it left, as described in the line above, and
  the contract does not describe the source.
- ReadTransfer.ReadLoop: a file read error other than end of file
  (main.go:141-147) makes the loop read again with nothing sent. The model's
  reads always succeed. It does not capture a read error that repeats
  forever. One input triggers that: an RRQ naming a directory, such as the
  empty filename, which opens the served folder itself (main.go:130). Every
  read of a directory then fails, so the loop spins forever and the server
  never handles another datagram.
- ReadTransfer.ChunkLength: every read is taken to return min(512, remaining)
  bytes, which holds for a regular file. The requested path is not
  sanitised (main.go:130), so an RRQ can name other files. A FIFO can return
  short reads, and the model's chunking and its end-of-transfer rule then
  differ from main.go:139-149. A device such as `../../dev/zero` never
  reports end of file, so the loop never ends, while every file in the model
  is finite.
- ReadTransfer.ReadLoop: a `Blocked` outcome stands for a server that has
  sent its next packet and waits forever for a reply. No timeout exists in the source or in the model.
- An RRQ's and a WRQ's files are independent in the model. In the source they
  could be the same file on disk.
