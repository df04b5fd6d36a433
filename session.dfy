/** The server's main loop, one received datagram at a time. The session
    state is process-wide: whether a write is in progress, the name given in
    the last accepted WRQ, the file being written and the flag that quiets
    per-block logging. An RRQ runs the whole read transfer on the spot and
    never touches that state; a WRQ opens a write session; a DATA packet
    appends to the file and is acknowledged; everything else is dropped. */
module Session {
  import opened Codec
  import opened ReadTransfer

  /** The loop-carried variables of the main loop. `file` is None while the
      file handle is nil: before the first WRQ, and after a failed create. */
  datatype ServerState = ServerState(
    transmissionInProgress: bool,
    filename: string,
    file: Option<seq<byte>>,
    hideDataMessages: bool)

  const Initial := ServerState(false, "", None, false)

  /** What the outside world does while one datagram is handled: whether
      creating the file, writing to it, reading it back for the completion
      dump and sending the reply succeed; the contents of the file an RRQ
      names (None when it cannot be opened); and the exchanges of the read
      loop. */
  datatype Env = Env(
    createOk: bool,
    writeOk: bool,
    dumpOk: bool,
    sendOk: bool,
    source: Option<seq<byte>>,
    exchanges: seq<Exchange>)

  /** Everything succeeds. */
  predicate Reliable(env: Env)
  {
    env.createOk && env.writeOk && env.dumpOk && env.sendOk
  }

  /** The state after one datagram, the datagrams sent meanwhile, and
      whether the server got back to its main loop. */
  datatype StepResult = StepResult(state: ServerState, sent: seq<seq<byte>>, outcome: Outcome)

  /** Logging is only ever quieted during a write. */
  predicate Inv(st: ServerState)
  {
    st.hideDataMessages ==> st.transmissionInProgress
  }

  /** The datagram is dropped: nothing sent, state unchanged. */
  function Drop(st: ServerState): StepResult
  {
    StepResult(st, [], Returned)
  }

  // ---------------------------------------------------------------------
  // Specification of one iteration of the main loop.
  // ---------------------------------------------------------------------

  /** One datagram: only an RRQ can keep the server from getting back to
      the main loop, only a WRQ or a DATA packet can change the state, and
      any other opcode is dropped. */
  function Next(st: ServerState, buf: seq<byte>, env: Env): (r: StepResult)
    ensures r.outcome == Blocked ==> IsReadRequest(buf)
    ensures r.state != st ==> |buf| >= 2 && buf[0] == 0 && (buf[1] as int == WRQ || buf[1] as int == DATA)
    ensures (|buf| < 2 || buf[0] != 0 || buf[1] as int !in {RRQ, WRQ, DATA}) ==> r == Drop(st)
  {
    match Int16At(buf, 0)
    case None => Drop(st)
    case Some(op) =>
      if op.value == RRQ then ReadRequest(st, buf, env)
      else if op.value == WRQ then WriteRequest(st, buf, env)
      else if op.value == DATA then DataBlock(st, buf, env)
      else Drop(st)
  }

  /** RRQ: filename and mode, then the read loop over the opened file. Any
      mode is served. The write session is left alone. */
  function ReadRequest(st: ServerState, buf: seq<byte>, env: Env): (r: StepResult)
    ensures r.state == st
  {
    match StringAt(buf, 2)
    case None => Drop(st)
    case Some(name) =>
      match StringAt(buf, name.next)
      case None => Drop(st)
      case Some(_) =>
        match env.source
        case None => Drop(st)
        case Some(contents) =>
          var t := ReadLoop(contents, 1, env.exchanges);
          StepResult(st, t.sent, t.outcome)
  }

  /** WRQ: refused while a write is in progress; otherwise the session is
      marked in progress and the name recorded BEFORE the file is created,
      so a failed create leaves a session that can never complete. */
  function WriteRequest(st: ServerState, buf: seq<byte>, env: Env): (r: StepResult)
    ensures r.outcome == Returned
    ensures st.transmissionInProgress ==> r == Drop(st)
    ensures r.state != st ==>
      r.state.transmissionInProgress && r.state.hideDataMessages == st.hideDataMessages &&
      (r.state.file.None? || r.state.file == Some([]))
    ensures r.sent != [] ==> r.sent == [AckPacket(0)] && r.state.file == Some([])
  {
    if st.transmissionInProgress then Drop(st)
    else
      match StringAt(buf, 2)
      case None => Drop(st)
      case Some(name) =>
        match StringAt(buf, name.next)
        case None => Drop(st)
        case Some(_) =>
          var st' := st.(transmissionInProgress := true, filename := name.value,
                         file := if env.createOk then Some([]) else None);
          StepResult(st', if env.createOk && env.sendOk then [AckPacket(0)] else [], Returned)
  }

  /** DATA: the payload after the four header bytes is appended; a payload
      shorter than 512 bytes closes the session; the block number is echoed
      in an ACK. */
  function DataBlock(st: ServerState, buf: seq<byte>, env: Env): (r: StepResult)
    ensures r.outcome == Returned && r.state.filename == st.filename
    ensures !st.transmissionInProgress ==> r == Drop(st)
    ensures st.file.None? ==> r.state.file.None?
    ensures st.file.Some? ==> r.state.file.Some? && st.file.value <= r.state.file.value
    ensures r.sent != [] ==>
      Int16At(buf, 2).Some? && r.sent == [AckPacket(Int16At(buf, 2).value.value)] &&
      st.file.Some? && r.state.file == Some(st.file.value + buf[4..])
  {
    if !st.transmissionInProgress then Drop(st)
    else
      match Int16At(buf, 2)
      case None => Drop(st)
      case Some(blockNum) =>
        var st1 := st.(hideDataMessages := st.hideDataMessages || blockNum.value > 1000);
        if |buf| == 4 then Drop(st1)  // reading an empty remainder reports end of data
        else
          var payload := buf[4..];
          if st.file.None? || !env.writeOk then Drop(st1)
          else
            var st2 := st1.(file := Some(st.file.value + payload));
            if |payload| < BlockSize && !env.dumpOk then Drop(st2)
            else
              var st3 := if |payload| < BlockSize
                then st2.(transmissionInProgress := false, hideDataMessages := false)
                else st2;
              StepResult(st3, if env.sendOk then [AckPacket(blockNum.value)] else [], Returned)
  }

  // ---------------------------------------------------------------------
  // The server.
  // ---------------------------------------------------------------------

  class Server {
    var transmissionInProgress: bool
    var hideDataMessages: bool
    var filename: string
    var file: Option<seq<byte>>

    function State(): ServerState
      reads this
    {
      ServerState(transmissionInProgress, filename, file, hideDataMessages)
    }

    ghost predicate Valid()
      reads this
    {
      Inv(State())
    }

    constructor ()
      ensures Valid() && State() == Initial
    {
      transmissionInProgress := false;
      hideDataMessages := false;
      filename := "";
      file := None;
    }

    /** Handle one received datagram. */
    method Step(buf: seq<byte>, env: Env) returns (sent: seq<seq<byte>>, outcome: Outcome)
      requires Valid()
      modifies this
      ensures Valid()
      ensures StepResult(State(), sent, outcome) == Next(old(State()), buf, env)
    {
      NextKeepsInv(State(), buf, env);
      sent, outcome := [], Returned;
      var msg := new TftpReader(buf);
      var msgType := msg.ReadInt16();
      if msgType.None? {
        return;
      }
      if msgType.value == RRQ {
        sent, outcome := OnReadRequest(msg, env);
      } else if msgType.value == WRQ {
        sent := OnWriteRequest(msg, env);
      } else if msgType.value == DATA {
        sent := OnData(msg, env);
      }
    }

    /** RRQ, with the cursor past the opcode. */
    method OnReadRequest(msg: TftpReader, env: Env) returns (sent: seq<seq<byte>>, outcome: Outcome)
      requires msg.Valid() && msg.pos == 2
      modifies msg
      ensures StepResult(State(), sent, outcome) == ReadRequest(State(), msg.data, env)
    {
      sent, outcome := [], Returned;
      var fileName := msg.ReadNullTerminatedString();
      if fileName.None? {
        return;
      }
      var mode := msg.ReadNullTerminatedString();
      if mode.None? {
        return;
      }
      // a mode other than "octet" is only reported
      match env.source {
        case None =>
          return;
        case Some(contents) =>
          sent, outcome := ServeRead(contents, env.exchanges);
      }
    }

    /** WRQ, with the cursor past the opcode. */
    method OnWriteRequest(msg: TftpReader, env: Env) returns (sent: seq<seq<byte>>)
      requires msg.Valid() && msg.pos == 2
      modifies this, msg
      ensures StepResult(State(), sent, Returned) == WriteRequest(old(State()), msg.data, env)
    {
      sent := [];
      if transmissionInProgress {
        return;
      }
      var fileName := msg.ReadNullTerminatedString();
      if fileName.None? {
        return;
      }
      var mode := msg.ReadNullTerminatedString();
      if mode.None? {
        return;
      }
      // a mode other than "octet" is only reported
      transmissionInProgress := true;
      filename := fileName.value;
      if !env.createOk {
        file := None;
        return;
      }
      file := Some([]);
      if env.sendOk {
        sent := [[0, 4, 0, 0]];
      }
    }

    /** DATA, with the cursor past the opcode. */
    method OnData(msg: TftpReader, env: Env) returns (sent: seq<seq<byte>>)
      requires msg.Valid() && msg.pos == 2
      modifies this, msg
      ensures StepResult(State(), sent, Returned) == DataBlock(old(State()), msg.data, env)
    {
      sent := [];
      if !transmissionInProgress {
        return;
      }
      var blockNum := msg.ReadInt16();
      if blockNum.None? {
        return;
      }
      if blockNum.value > 1000 && !hideDataMessages {
        hideDataMessages := true;
      }
      var blockData := msg.Read(|msg.data| - 4);
      if blockData.None? {
        return;
      }
      assert blockData.value == msg.data[4..];
      if file.None? || !env.writeOk {
        return;
      }
      file := Some(file.value + blockData.value);
      if |blockData.value| < BlockSize {
        // the completion dump reads the whole file back
        if !env.dumpOk {
          return;
        }
        transmissionInProgress := false;
        hideDataMessages := false;
      }
      if env.sendOk {
        sent := [[0, 4, Hi(blockNum.value), Lo(blockNum.value)]];
      }
    }
  }

  // ---------------------------------------------------------------------
  // Properties of one datagram.
  // ---------------------------------------------------------------------

  /** The logging flag is only set while a write is in progress. */
  lemma NextKeepsInv(st: ServerState, buf: seq<byte>, env: Env)
    requires Inv(st)
    ensures Inv(Next(st, buf, env).state)
  {
  }

  /** An RRQ never changes the session state; when both fields parse and
      the file opens, it sends what the read loop sends. */
  lemma ReadRequestServesFile(st: ServerState, name: string, mode: string, rest: seq<byte>, env: Env)
    requires IsField(name) && IsField(mode)
    ensures var r := Next(st, RequestPacket(RRQ as byte, name, mode) + rest, env);
      r.state == st &&
      (env.source.Some? ==>
        var t := ReadLoop(env.source.value, 1, env.exchanges);
        r.sent == t.sent && r.outcome == t.outcome) &&
      (env.source.None? ==> r == Drop(st))
  {
    RequestRoundTrip(RRQ as byte, name, mode, rest);
  }

  /** A WRQ while a write is in progress is dropped. */
  lemma WriteRequestWhileBusy(st: ServerState, buf: seq<byte>, env: Env)
    requires st.transmissionInProgress
    requires |buf| >= 2 && buf[0] == 0 && buf[1] as int == WRQ
    ensures Next(st, buf, env) == Drop(st)
  {
  }

  /** A WRQ without two terminated fields is dropped. */
  lemma MalformedWriteRequestDropped(st: ServerState, buf: seq<byte>, env: Env)
    requires |buf| >= 2 && buf[0] == 0 && buf[1] as int == WRQ
    requires StringAt(buf, 2).None? || StringAt(buf, StringAt(buf, 2).value.next).None?
    ensures Next(st, buf, env) == Drop(st)
  {
  }

  /** An accepted WRQ, whatever its mode: the session is in progress under
      the requested name, the file starts empty (or is nil if the create
      failed) and ACK 0 is sent when the create and the send succeed. */
  lemma WriteRequestAccepted(st: ServerState, name: string, mode: string, rest: seq<byte>, env: Env)
    requires !st.transmissionInProgress && IsField(name) && IsField(mode)
    ensures var r := Next(st, RequestPacket(WRQ as byte, name, mode) + rest, env);
      r.state.transmissionInProgress && r.state.filename == name &&
      r.state.hideDataMessages == st.hideDataMessages &&
      r.state.file == (if env.createOk then Some([]) else None) &&
      r.sent == (if env.createOk && env.sendOk then [AckPacket(0)] else []) &&
      r.outcome == Returned
  {
    RequestRoundTrip(WRQ as byte, name, mode, rest);
  }

  /** DATA while no write is in progress: no change to the file, no reply. */
  lemma DataWhileIdle(st: ServerState, buf: seq<byte>, env: Env)
    requires !st.transmissionInProgress
    requires |buf| >= 2 && buf[0] == 0 && buf[1] as int == DATA
    ensures Next(st, buf, env) == Drop(st)
  {
  }

  /** DATA with an empty payload: nothing written, no reply, the session
      stays open (only the logging flag may change). */
  lemma EmptyDataDropped(st: ServerState, n: nat, env: Env)
    requires st.transmissionInProgress
    ensures var r := Next(st, DataPacket(n, []), env);
      r.sent == [] && r.state.file == st.file && r.state.transmissionInProgress &&
      r.state.filename == st.filename
  {
  }

  /** DATA during a write: the payload is appended and the block number
      echoed; a payload shorter than 512 bytes closes the session once the
      completion dump succeeds. */
  lemma DataAppends(st: ServerState, n: nat, payload: seq<byte>, env: Env)
    requires st.transmissionInProgress && payload != []
    ensures var r := Next(st, DataPacket(n, payload), env);
      var written := st.file.Some? && env.writeOk;
      var closes := written && |payload| < BlockSize && env.dumpOk;
      r.state.file == (if written then Some(st.file.value + payload) else st.file) &&
      r.state.transmissionInProgress == !closes &&
      (closes ==> !r.state.hideDataMessages) &&
      r.state.filename == st.filename &&
      r.sent == (if written && (|payload| >= BlockSize || env.dumpOk) && env.sendOk
                 then [AckPacket(n)] else []) &&
      r.outcome == Returned
  {
    var p := DataPacket(n, payload);
    assert p[4..] == payload;
    AckReencode(n);
  }

  /** After a failed create the session is stuck: every DATA is dropped
      without a reply and the session never closes. */
  lemma FailedCreateStalls(st: ServerState, buf: seq<byte>, env: Env)
    requires st.transmissionInProgress && st.file.None?
    requires |buf| >= 2 && buf[0] == 0 && buf[1] as int == DATA
    ensures var r := Next(st, buf, env);
      r.sent == [] && r.state.transmissionInProgress && r.state.file.None?
  {
  }

  // ---------------------------------------------------------------------
  // Properties of a sequence of datagrams.
  // ---------------------------------------------------------------------

  /** A datagram and what the outside world does while it is handled. */
  datatype Arrival = Arrival(datagram: seq<byte>, env: Env)

  /** The main loop over successive datagrams; it stops for good when a read
      transfer blocks, which only an RRQ can make it do. */
  function Run(st: ServerState, arrivals: seq<Arrival>): (r: StepResult)
    decreases |arrivals|
    ensures r.outcome == Blocked ==>
      exists i :: 0 <= i < |arrivals| && IsReadRequest(arrivals[i].datagram)
  {
    if arrivals == [] then StepResult(st, [], Returned)
    else
      var r := Next(st, arrivals[0].datagram, arrivals[0].env);
      if r.outcome == Blocked then
        assert IsReadRequest(arrivals[0].datagram);
        r
      else
        var rs := Run(r.state, arrivals[1..]);
        assert rs.outcome == Blocked ==> exists i :: 1 <= i < |arrivals| && IsReadRequest(arrivals[i].datagram) by {
          if rs.outcome == Blocked {
            var i :| 0 <= i < |arrivals| - 1 && IsReadRequest(arrivals[1..][i].datagram);
            assert arrivals[1..][i] == arrivals[i + 1];
          }
        }
        StepResult(rs.state, r.sent + rs.sent, rs.outcome)
  }

  /** The datagram starts with the RRQ opcode. */
  predicate IsReadRequest(buf: seq<byte>)
  {
    |buf| >= 2 && buf[0] == 0 && buf[1] as int == RRQ
  }

  /** After a failed create no sequence of datagrams ever closes the
      session or gives it a file: every later WRQ is refused and every DATA
      dropped. */
  lemma {:induction false} FailedCreateStallsForever(st: ServerState, arrivals: seq<Arrival>)
    requires st.transmissionInProgress && st.file.None?
    ensures Run(st, arrivals).state.transmissionInProgress && Run(st, arrivals).state.file.None?
    decreases |arrivals|
  {
    if arrivals != [] {
      var r := Next(st, arrivals[0].datagram, arrivals[0].env);
      if r.outcome == Returned {
        RunStep(st, arrivals);
        FailedCreateStallsForever(r.state, arrivals[1..]);
      }
    }
  }

  /** The invariant holds after any sequence of datagrams. */
  lemma {:induction false} RunKeepsInv(st: ServerState, arrivals: seq<Arrival>)
    requires Inv(st)
    ensures Inv(Run(st, arrivals).state)
    decreases |arrivals|
  {
    if arrivals != [] {
      var r := Next(st, arrivals[0].datagram, arrivals[0].env);
      NextKeepsInv(st, arrivals[0].datagram, arrivals[0].env);
      if r.outcome == Returned {
        RunKeepsInv(r.state, arrivals[1..]);
      }
    }
  }

  function AckPackets(ns: seq<nat>): (acks: seq<seq<byte>>)
    ensures |acks| == |ns|
  {
    seq(|ns|, i requires 0 <= i < |ns| => AckPacket(ns[i]))
  }

  /** The arrivals are DATA packets carrying block numbers `ns` and
      non-empty payloads `ps`, every payload but the last at least 512 bytes
      long, all handled without failure. */
  predicate WriteBlocks(arrivals: seq<Arrival>, ns: seq<nat>, ps: seq<seq<byte>>)
  {
    |arrivals| == |ns| == |ps| &&
    (forall i :: 0 <= i < |arrivals| ==>
      arrivals[i].datagram == DataPacket(ns[i], ps[i]) && ps[i] != [] && Reliable(arrivals[i].env)) &&
    (forall i :: 0 <= i < |ps| - 1 ==> |ps[i]| >= BlockSize)
  }

  lemma WriteBlocksTail(arrivals: seq<Arrival>, ns: seq<nat>, ps: seq<seq<byte>>)
    requires WriteBlocks(arrivals, ns, ps) && arrivals != []
    ensures arrivals[0].datagram == DataPacket(ns[0], ps[0]) && ps[0] != [] && Reliable(arrivals[0].env)
    ensures |ps| > 1 ==> |ps[0]| >= BlockSize
    ensures WriteBlocks(arrivals[1..], ns[1..], ps[1..])
  {
    forall i | 0 <= i < |arrivals| - 1
      ensures arrivals[1..][i].datagram == DataPacket(ns[1..][i], ps[1..][i])
    {
      assert arrivals[1..][i] == arrivals[i + 1];
    }
  }

  /** One DATA packet of a write session in which nothing fails. */
  lemma ReliableDataStep(st: ServerState, n: nat, payload: seq<byte>, env: Env)
    requires st.transmissionInProgress && st.file.Some? && payload != [] && Reliable(env)
    ensures var r := Next(st, DataPacket(n, payload), env);
      r.state.file == Some(st.file.value + payload) &&
      r.state.transmissionInProgress == (|payload| >= BlockSize) &&
      (|payload| < BlockSize ==> !r.state.hideDataMessages) &&
      r.state.filename == st.filename &&
      r.sent == [AckPacket(n)] && r.outcome == Returned
  {
    DataAppends(st, n, payload, env);
  }

  /** The main loop goes on after a datagram that does not block. */
  lemma RunStep(st: ServerState, arrivals: seq<Arrival>)
    requires arrivals != []
    requires Next(st, arrivals[0].datagram, arrivals[0].env).outcome == Returned
    ensures var r := Next(st, arrivals[0].datagram, arrivals[0].env);
      var rs := Run(r.state, arrivals[1..]);
      Run(st, arrivals) == StepResult(rs.state, r.sent + rs.sent, rs.outcome)
  {
  }

  /** Over a write session the file is the payloads concatenated in arrival
      order, every block is acknowledged with its own number, and the session
      is still open exactly when the last payload was a full block. */
  lemma {:induction false} WriteSessionAssembles(st: ServerState, arrivals: seq<Arrival>, ns: seq<nat>, ps: seq<seq<byte>>)
    requires st.transmissionInProgress && st.file.Some?
    requires WriteBlocks(arrivals, ns, ps)
    ensures var r := Run(st, arrivals);
      r.state.file == Some(st.file.value + Concat(ps)) &&
      r.sent == AckPackets(ns) &&
      r.state.filename == st.filename &&
      r.state.transmissionInProgress == (ps == [] || |ps[|ps| - 1]| >= BlockSize) &&
      r.outcome == Returned
    decreases |arrivals|
  {
    if arrivals == [] {
      assert st.file.value + [] == st.file.value;
    } else {
      var a := arrivals[0];
      WriteBlocksTail(arrivals, ns, ps);
      ReliableDataStep(st, ns[0], ps[0], a.env);
      var r := Next(st, a.datagram, a.env);
      RunStep(st, arrivals);
      var rs := Run(r.state, arrivals[1..]);
      assert AckPackets(ns) == [AckPacket(ns[0])] + AckPackets(ns[1..]);
      if |ps| == 1 {
        assert ps[1..] == [] && ns[1..] == [];
        assert rs == StepResult(r.state, [], Returned);
        assert Concat(ps) == ps[0] + [] == ps[0];
      } else {
        WriteSessionAssembles(r.state, arrivals[1..], ns[1..], ps[1..]);
        assert st.file.value + ps[0] + Concat(ps[1..]) == st.file.value + Concat(ps);
      }
    }
  }

  /** A whole upload from an idle server: ACK 0 for the WRQ, then one ACK
      per block with its number, and the file holds the payloads in order
      under the requested name. */
  lemma WriteTransfer(st: ServerState, name: string, mode: string, env: Env,
                      arrivals: seq<Arrival>, ns: seq<nat>, ps: seq<seq<byte>>)
    requires !st.transmissionInProgress && IsField(name) && IsField(mode) && Reliable(env)
    requires WriteBlocks(arrivals, ns, ps)
    ensures var r := Run(st, [Arrival(RequestPacket(WRQ as byte, name, mode), env)] + arrivals);
      r.state.file == Some(Concat(ps)) &&
      r.state.filename == name &&
      r.sent == [AckPacket(0)] + AckPackets(ns)
  {
    var wrq := RequestPacket(WRQ as byte, name, mode);
    WriteRequestAccepted(st, name, mode, [], env);
    assert wrq + [] == wrq;
    var all := [Arrival(wrq, env)] + arrivals;
    assert all[0] == Arrival(wrq, env) && all[1..] == arrivals;
    var r := Next(st, wrq, env);
    RunStep(st, all);
    WriteSessionAssembles(r.state, arrivals, ns, ps);
    assert [] + Concat(ps) == Concat(ps);
  }
}
