/**
 The sending half of the DTLS handshake transport: building messages, queueing a flight, cutting it
 into fragments that fit the MTU, and resuming or retransmitting it (seal_next_message,
 seal_next_packet, send_flight).

 The functions are the specification; class Sender is the code.
 */
module DtlsSender {
  import opened Wrappers
  import opened Bytes
  import opened Aead
  import opened DtlsFragment
  import opened DtlsRecord
  import opened DtlsRecordLayer

  const MAX_FLIGHT: nat := 7
  const RT_CHANGE_CIPHER_SPEC: byte := 20
  const RT_HANDSHAKE: byte := 22
  const MT_CCS: byte := 1

  // ---- Building a message -------------------------------------------------------------------

  /** A message as one fragment: the bytes both transcripts hash. */
  function Raw(typ: byte, seqNum: nat, body: seq<byte>): (s: seq<byte>)
    ensures |s| == HM_HEADER_LENGTH + |body|
  {
    Header(typ, |body|, seqNum, 0, |body|).Write() + body
  }

  /** What dtls1_init_message and the closed builder leave: the total length is still zero. */
  function Unfinished(typ: byte, seqNum: nat, body: seq<byte>): seq<byte> {
    Header(typ, 0, seqNum, 0, |body|).Write() + body
  }

  /** dtls1_finish_message copies the fragment length over the total length, in place. */
  method FinishMessage(msg: array<byte>) returns (ok: bool)
    modifies msg
    ensures ok == (msg.Length >= HM_HEADER_LENGTH)
    ensures ok ==> msg[..] == old(msg[..1] + msg[9..12] + msg[4..])
    ensures !ok ==> msg[..] == old(msg[..])
  {
    if msg.Length < HM_HEADER_LENGTH {
      return false;
    }
    CopyInto(msg, 1, msg[HM_HEADER_LENGTH - 3..HM_HEADER_LENGTH]);
    return true;
  }

  /** So a finished message is exactly the single-fragment form. */
  lemma FinishedIsRaw(typ: byte, seqNum: nat, body: seq<byte>)
    ensures var s := Unfinished(typ, seqNum, body);
            s[..1] + s[9..12] + s[4..] == Raw(typ, seqNum, body)
  {
    var h, h' := Header(typ, 0, seqNum, 0, |body|), Header(typ, |body|, seqNum, 0, |body|);
    var s := Unfinished(typ, seqNum, body);
    WriteFields(h);
    WriteFields(h');
    SubOfPrefix(h.Write(), body, 9, 12);
    assert s[4..] == h.Write()[4..] + body;
    assert h.Write()[4..] == Be(seqNum, 2) + Be(0, 3) + Be(|body|, 3) == h'.Write()[4..];
    assert h'.Write() == h'.Write()[..1] + h'.Write()[1..4] + h'.Write()[4..];
  }

  // ---- The flight -----------------------------------------------------------------------------

  datatype OutMsg = OutMsg(data: seq<byte>, epoch: nat, isCcs: bool)

  /** outgoing_written and outgoing_offset. */
  datatype Cursor = Cursor(written: nat, offset: nat)

  datatype SendState = SendState(msgs: seq<OutMsg>, cur: Cursor, ws: WriteState,
                                 complete: bool, hasReply: bool, writeSeq: nat)

  /** What a record carries before it is sealed, and the epoch it is sealed in. */
  datatype Plain = Plain(epoch: nat, typ: byte, payload: seq<byte>)

  function Clear(st: SendState): SendState {
    st.(msgs := [], cur := Cursor(0, 0), complete := false, hasReply := false)
  }

  /** add_outgoing: a completed flight is discarded first; the queue holds seven messages. */
  function AddOutgoing(st: SendState, data: seq<byte>, isCcs: bool): (r: (SendState, bool)) {
    var st' := if st.complete then Clear(st) else st;
    if |st'.msgs| >= MAX_FLIGHT || |data| > 0xffff_ffff then (st', false)
    else
      (st'.(msgs := st'.msgs + [OutMsg(data, st'.ws.epoch, isCcs)],
            writeSeq := if isCcs then st'.writeSeq else (st'.writeSeq + 1) % U16), true)
  }

  datatype SealMsg = SealError | NoProgress | Progress(bytes: seq<byte>, plain: Plain, partial: bool)

  /** Whether msg is retransmitted under the previous key; None when its epoch is neither. */
  function EpochChoice(ws: WriteState, msg: OutMsg): Option<bool> {
    if ws.epoch >= 1 && msg.epoch == ws.epoch - 1 then Some(true)
    else if msg.epoch == ws.epoch then Some(false)
    else None
  }

  /** The queued message parsed back, as seal_next_message insists it must be. */
  function ParseQueued(data: seq<byte>): (r: Option<(Header, seq<byte>)>)
    ensures r.Some? ==> r.value.0.Fits() && |r.value.1| == r.value.0.msgLen && |r.value.1| < |data|
  {
    match ParseFragment(data)
    case None => None
    case Some(p) =>
      if p.hdr.fragOff != 0 || p.hdr.msgLen != |p.body| || p.rest != [] then None
      else
        WriteOfParse(data);
        Some((p.hdr, p.body))
  }

  /** The fragment of a message that starts at off and holds len octets. */
  function Fragment(hdr: Header, body: seq<byte>, off: nat, len: nat): (s: seq<byte>)
    requires off + len <= |body|
    ensures |s| == HM_HEADER_LENGTH + len
  {
    hdr.(fragOff := off, fragLen := len).Write() + body[off..off + len]
  }

  function Min(a: int, b: int): int {
    if a < b then a else b
  }

  datatype Plan = PlanError | PlanNoRoom
                | PlanSeal(usePrevious: bool, typ: byte, payload: seq<byte>, cur: Cursor, partial: bool)

  /** What seal_next_message decides to seal, and where that leaves the cursor. */
  ghost function PlanMessage(st: SendState, maxOut: nat): Plan
    requires WriteInv(st.ws) && st.cur.written < |st.msgs|
  {
    var msg := st.msgs[st.cur.written];
    match EpochChoice(st.ws, msg)
    case None => PlanError
    case Some(usePrevious) =>
      var overhead := RT_HEADER_LENGTH + Key(st.ws, usePrevious).aead.MaxOverhead();
      if msg.isCcs then
        if maxOut < 1 + overhead then PlanNoRoom
        else PlanSeal(usePrevious, RT_CHANGE_CIPHER_SPEC, [MT_CCS], st.cur, false)
      else
        match ParseQueued(msg.data)
        case None => PlanError
        case Some((hdr, body)) =>
          if st.cur.offset > |body| then PlanError
          else if maxOut < HM_HEADER_LENGTH + 1 + overhead then PlanNoRoom
          else
            var left := |body| - st.cur.offset;
            var todo := Min(left, maxOut - HM_HEADER_LENGTH - overhead);
            PlanSeal(usePrevious, RT_HANDSHAKE, Fragment(hdr, body, st.cur.offset, todo),
                     st.cur.(offset := if todo == left then 0 else st.cur.offset + todo), todo < left)
  }

  /** seal_next_message: seal what was planned and move the cursor if that succeeds. */
  ghost function SealMessage(st: SendState, maxOut: nat): (r: (SendState, SealMsg))
    requires WriteInv(st.ws) && st.cur.written < |st.msgs|
  {
    match PlanMessage(st, maxOut)
    case PlanError => (st, SealError)
    case PlanNoRoom => (st, NoProgress)
    case PlanSeal(usePrevious, typ, payload, cur, partial) =>
      var (ws', result) := SealRecord(st.ws, usePrevious, typ, payload, maxOut);
      match result
      case Failed => (st.(ws := ws'), SealError)
      case Sealed(record) =>
        (st.(ws := ws', cur := cur), Progress(record, Plain(st.msgs[st.cur.written].epoch, typ, payload), partial))
  }

  lemma SealMessageFrame(st: SendState, maxOut: nat)
    requires WriteInv(st.ws) && st.cur.written < |st.msgs|
    ensures var st' := SealMessage(st, maxOut).0;
            && WriteInv(st'.ws) && SameKeys(st.ws, st'.ws) && st'.cur.written == st.cur.written
            && st' == st.(ws := st'.ws, cur := st'.cur)
            && (!SealMessage(st, maxOut).1.Progress? ==> st'.cur == st.cur)
  {
    hide SealRecord;
    hide ParseQueued;
    hide Fragment;
    var plan := PlanMessage(st, maxOut);
    if plan.PlanSeal? {
      SealKeepsInv(st.ws, plan.usePrevious, plan.typ, plan.payload, maxOut);
    }
  }

  lemma PlanUsable(st: SendState, maxOut: nat)
    requires WriteInv(st.ws) && st.cur.written < |st.msgs|
    ensures var plan := PlanMessage(st, maxOut);
            plan.PlanSeal? ==> Usable(st.ws, plan.usePrevious) && plan.cur.written == st.cur.written
  {
    hide ParseQueued;
    hide Fragment;
  }

  /** Sealing changes counters only. */
  ghost predicate SameKeys(ws: WriteState, ws': WriteState) {
    && ws'.epoch == ws.epoch && ws'.current.aead == ws.current.aead
    && ws'.previous.Some? == ws.previous.Some?
    && (ws.previous.Some? ==> ws'.previous.value.aead == ws.previous.value.aead)
  }

  datatype PacketResult = PacketError | Packet(bytes: seq<byte>, plains: seq<Plain>)

  /** seal_next_packet, with what has been put into the packet so far. */
  ghost function SealPacket(st: SendState, maxOut: nat, bytes: seq<byte>, plains: seq<Plain>):
      (r: (SendState, PacketResult))
    requires WriteInv(st.ws)
    decreases |st.msgs| - st.cur.written
  {
    if st.cur.written >= |st.msgs| then Full(st, bytes, plains)
    else
      SealMessageFrame(st, maxOut);
      var (st', result) := SealMessage(st, maxOut);
      match result
      case SealError => (st', PacketError)
      case NoProgress => Full(st', bytes, plains)
      case Progress(record, plain, partial) =>
        if partial then Full(st', bytes + record, plains + [plain])
        else SealPacket(st'.(cur := Cursor(st.cur.written + 1, st'.cur.offset)),
                        if |record| <= maxOut then maxOut - |record| else 0, bytes + record, plains + [plain])
  }

  /** The packet_full exit: no progress means the MTU was too small. */
  function Full(st: SendState, bytes: seq<byte>, plains: seq<Plain>): (SendState, PacketResult) {
    (st, if plains == [] then PacketError else Packet(bytes, plains))
  }

  // ---- What a packet covers -------------------------------------------------------------------

  /**
   Where the cursor stands after a record: the record must be the queued ChangeCipherSpec, or a
   fragment that starts exactly at the cursor, makes progress and stays inside the message.
   */
  ghost function StepCursor(msgs: seq<OutMsg>, c: Cursor, plain: Plain): Option<Cursor> {
    if c.written >= |msgs| || plain.epoch != msgs[c.written].epoch then None
    else if msgs[c.written].isCcs then
      if plain.typ == RT_CHANGE_CIPHER_SPEC && plain.payload == [MT_CCS] then Some(Cursor(c.written + 1, 0)) else None
    else
      match ParseQueued(msgs[c.written].data)
      case None => None
      case Some((hdr, body)) =>
        var len := |plain.payload| - HM_HEADER_LENGTH;
        if plain.typ != RT_HANDSHAKE || len < 0 || c.offset + len > |body|
           || plain.payload != Fragment(hdr, body, c.offset, len) || (len == 0 && body != []) then None
        else if c.offset + len == |body| then Some(Cursor(c.written + 1, 0))
        else Some(Cursor(c.written, c.offset + len))
  }

  /** The cursor after a sequence of records. */
  ghost function Walk(msgs: seq<OutMsg>, c: Cursor, plains: seq<Plain>): Option<Cursor>
    decreases |plains|
  {
    if plains == [] then Some(c)
    else
      match StepCursor(msgs, c, plains[0])
      case None => None
      case Some(c') => Walk(msgs, c', plains[1..])
  }

  lemma {:induction false} WalkConcat(msgs: seq<OutMsg>, c: Cursor, a: seq<Plain>, b: seq<Plain>)
    requires Walk(msgs, c, a).Some?
    ensures Walk(msgs, c, a + b) == Walk(msgs, Walk(msgs, c, a).value, b)
    decreases |a|
  {
    if a == [] {
      assert a + b == b;
    } else {
      assert (a + b)[0] == a[0] && (a + b)[1..] == a[1..] + b;
      WalkConcat(msgs, StepCursor(msgs, c, a[0]).value, a[1..], b);
    }
  }

  /** A cursor that send_flight can be at: unless at the start of a message, strictly inside its body. */
  ghost predicate CursorOk(msgs: seq<OutMsg>, c: Cursor) {
    && c.written <= |msgs|
    && (c.offset > 0 ==>
          && c.written < |msgs| && !msgs[c.written].isCcs
          && ParseQueued(msgs[c.written].data).Some?
          && c.offset < |ParseQueued(msgs[c.written].data).value.1|)
  }

  /** What is planned is one step of the cursor. */
  lemma PlanSteps(st: SendState, maxOut: nat)
    requires WriteInv(st.ws) && st.cur.written < |st.msgs| && CursorOk(st.msgs, st.cur)
    ensures var plan := PlanMessage(st, maxOut);
            plan.PlanSeal? ==>
              var next := if plan.partial then plan.cur else Cursor(st.cur.written + 1, 0);
              && StepCursor(st.msgs, st.cur, Plain(st.msgs[st.cur.written].epoch, plan.typ, plan.payload)) == Some(next)
              && (!plan.partial ==> plan.cur.offset == 0)
              && CursorOk(st.msgs, next)
  {
    hide ParseQueued;
    hide Fragment;
    hide WriteInv;
  }

  /** One sealed message is one step of the cursor. */
  lemma SealMessageSteps(st: SendState, maxOut: nat)
    requires WriteInv(st.ws) && st.cur.written < |st.msgs| && CursorOk(st.msgs, st.cur)
    ensures var (st', result) := SealMessage(st, maxOut);
            result.Progress? ==>
              var next := if result.partial then st'.cur else Cursor(st.cur.written + 1, 0);
              && StepCursor(st.msgs, st.cur, result.plain) == Some(next)
              && (!result.partial ==> st'.cur.offset == 0) && CursorOk(st.msgs, next)
  {
    PlanSteps(st, maxOut);
  }

  /** Steps go forward: to a later message, or further into the same one. */
  ghost predicate Before(c: Cursor, c': Cursor) {
    c.written < c'.written || (c.written == c'.written && c.offset < c'.offset)
  }

  lemma {:induction false} WalkAdvances(msgs: seq<OutMsg>, c: Cursor, plains: seq<Plain>)
    requires plains != [] && Walk(msgs, c, plains).Some?
    ensures Before(c, Walk(msgs, c, plains).value)
    decreases |plains|
  {
    var c' := StepCursor(msgs, c, plains[0]).value;
    if plains[1..] != [] { WalkAdvances(msgs, c', plains[1..]); }
  }

  lemma WalkStep(msgs: seq<OutMsg>, c: Cursor, plain: Plain, rest: seq<Plain>)
    requires StepCursor(msgs, c, plain).Some?
    ensures Walk(msgs, c, [plain] + rest) == Walk(msgs, StepCursor(msgs, c, plain).value, rest)
    ensures [plain] + [] == [plain] && Walk(msgs, StepCursor(msgs, c, plain).value, []) == StepCursor(msgs, c, plain)
  {
    hide StepCursor;
    assert ([plain] + rest)[1..] == rest;
  }

  /** A packet's records walk the cursor from where it was to where it is. */
  lemma {:induction false} PacketWalks(st: SendState, maxOut: nat, bytes: seq<byte>, plains: seq<Plain>)
    requires WriteInv(st.ws) && CursorOk(st.msgs, st.cur)
    ensures var (st', result) := SealPacket(st, maxOut, bytes, plains);
            && WriteInv(st'.ws) && SameKeys(st.ws, st'.ws) && st' == st.(ws := st'.ws, cur := st'.cur)
            && CursorOk(st.msgs, st'.cur)
            && (result.Packet? ==>
                  && plains <= result.plains && result.plains != []
                  && Walk(st.msgs, st.cur, result.plains[|plains|..]) == Some(st'.cur))
    decreases |st.msgs| - st.cur.written
  {
    hide SealMessage, StepCursor, CursorOk, WriteInv;
    assert plains[|plains|..] == [];
    if st.cur.written < |st.msgs| {
      SealMessageFrame(st, maxOut);
      SealMessageSteps(st, maxOut);
      var (st', result) := SealMessage(st, maxOut);
      if result.Progress? {
        var plains' := plains + [result.plain];
        var next := if result.partial then st'.cur else Cursor(st.cur.written + 1, 0);
        assert Walk(st.msgs, next, []) == Some(next);
        if result.partial {
          assert plains'[|plains|..] == [result.plain];
        } else {
          var room := if |result.bytes| <= maxOut then maxOut - |result.bytes| else 0;
          PacketWalks(st'.(cur := next), room, bytes + result.bytes, plains');
          var final := SealPacket(st'.(cur := next), room, bytes + result.bytes, plains').1;
          if final.Packet? {
            var tail := final.plains[|plains|..];
            assert tail == [result.plain] + final.plains[|plains'|..];
            WalkStep(st.msgs, st.cur, result.plain, final.plains[|plains'|..]);
          }
        }
      }
    }
  }

  // ---- send_flight ------------------------------------------------------------------------------

  datatype FlightResult = FlightDone | TransportFailed | SealFailed

  datatype Sent = Sent(bytes: seq<byte>, plains: seq<Plain>)

  /** Octets of the current message's body still to be sent. */
  ghost function BodyLeft(st: SendState): nat
    requires CursorOk(st.msgs, st.cur)
  {
    if st.cur.written >= |st.msgs| || ParseQueued(st.msgs[st.cur.written].data).None? then 0
    else
      var len := |ParseQueued(st.msgs[st.cur.written].data).value.1|;
      if st.cur.offset <= len then len - st.cur.offset else 0
  }

  /** Sealing a packet gets the flight strictly further. */
  lemma PacketAdvances(st: SendState, mtu: nat)
    requires WriteInv(st.ws) && CursorOk(st.msgs, st.cur)
    ensures var (st', result) := SealPacket(st, mtu, [], []);
            && st'.msgs == st.msgs && WriteInv(st'.ws) && CursorOk(st.msgs, st'.cur)
            && (result.Packet? ==>
                  && st'.cur.written >= st.cur.written
                  && (st.cur.written == st'.cur.written ==> BodyLeft(st') < BodyLeft(st)))
  {
    hide SealPacket;
    PacketWalks(st, mtu, [], []);
    var (st', result) := SealPacket(st, mtu, [], []);
    if result.Packet? {
      assert result.plains[0..] == result.plains;
      WalkAdvances(st.msgs, st.cur, result.plains);
    }
  }

  /**
   send_flight: bio(k) says whether the k-th write to the transport succeeds, flushOk whether the
   final flush does.  A failed write restores the cursor from before its packet; a failed seal does
   not.  The recursion ends because messages left, then octets left of the current one, decrease.
   */
  ghost function SendFlight(st: SendState, mtu: nat, bio: nat -> bool, k: nat, flushOk: bool):
      (r: (SendState, seq<Sent>, FlightResult))
    requires WriteInv(st.ws) && CursorOk(st.msgs, st.cur)
    decreases |st.msgs| - st.cur.written, BodyLeft(st)
  {
    hide SealPacket;
    if st.cur.written >= |st.msgs| then (st, [], if flushOk then FlightDone else TransportFailed)
    else
      PacketAdvances(st, mtu);
      var (st', result) := SealPacket(st, mtu, [], []);
      match result
      case PacketError => (st', [], SealFailed)
      case Packet(bytes, plains) =>
        if !bio(k) then (st'.(cur := st.cur), [], TransportFailed)
        else After([Sent(bytes, plains)], SendFlight(st', mtu, bio, k + 1, flushOk))
  }

  /** A result of send_flight with packets put in front. */
  function After(sent: seq<Sent>, r: (SendState, seq<Sent>, FlightResult)): (SendState, seq<Sent>, FlightResult) {
    (r.0, sent + r.1, r.2)
  }

  lemma AfterNothing(r: (SendState, seq<Sent>, FlightResult))
    ensures After([], r) == r
  {
    assert [] + r.1 == r.1;
  }

  lemma AfterAfter(sent: seq<Sent>, s: Sent, r: (SendState, seq<Sent>, FlightResult))
    ensures After(sent, After([s], r)) == After(sent + [s], r)
  {
    assert sent + ([s] + r.1) == sent + [s] + r.1;
  }

  /** dtls1_retransmit_outgoing_messages starts the flight over. */
  function Rewind(st: SendState): SendState {
    st.(cur := Cursor(0, 0))
  }

  ghost function AllPlains(sent: seq<Sent>): seq<Plain> {
    if sent == [] then [] else sent[0].plains + AllPlains(sent[1..])
  }

  /**
   What one call puts on the wire walks the cursor from where it started without gap or overlap; on
   completion or a transport failure the cursor is left exactly where the next call must resume.
   */
  lemma {:induction false} FlightWalks(st: SendState, mtu: nat, bio: nat -> bool, k: nat, flushOk: bool)
    requires WriteInv(st.ws) && CursorOk(st.msgs, st.cur)
    ensures var (st', sent, result) := SendFlight(st, mtu, bio, k, flushOk);
            && Walk(st.msgs, st.cur, AllPlains(sent)).Some?
            && WriteInv(st'.ws) && st' == st.(ws := st'.ws, cur := st'.cur) && SameKeys(st.ws, st'.ws)
            && CursorOk(st.msgs, st'.cur)
            && (result != SealFailed ==> Walk(st.msgs, st.cur, AllPlains(sent)) == Some(st'.cur))
            && (result.FlightDone? ==> st'.cur.written == |st.msgs|)
    decreases |st.msgs| - st.cur.written, BodyLeft(st)
  {
    hide SealPacket;
    hide StepCursor;
    if st.cur.written < |st.msgs| {
      PacketWalks(st, mtu, [], []);
      var (st', result) := SealPacket(st, mtu, [], []);
      if result.Packet? && bio(k) {
        assert result.plains[0..] == result.plains;
        PacketAdvances(st, mtu);
        FlightWalks(st', mtu, bio, k + 1, flushOk);
        var sent := SendFlight(st', mtu, bio, k + 1, flushOk).1;
        WalkConcat(st.msgs, st.cur, result.plains, AllPlains(sent));
        assert ([Sent(result.bytes, result.plains)] + sent)[1..] == sent;
      }
    }
  }

  /** Any number of calls, each resuming where the previous one's transport failure left off. */
  datatype Call = Call(mtu: nat, bio: nat -> bool, flushOk: bool)

  ghost function Resume(st: SendState, calls: seq<Call>): (r: (SendState, seq<Sent>, FlightResult))
    requires WriteInv(st.ws) && CursorOk(st.msgs, st.cur) && calls != []
    decreases |calls|
  {
    var (st', sent, result) := SendFlight(st, calls[0].mtu, calls[0].bio, 0, calls[0].flushOk);
    FlightWalks(st, calls[0].mtu, calls[0].bio, 0, calls[0].flushOk);
    if |calls| == 1 || !result.TransportFailed? then (st', sent, result)
    else
      var (st'', more, final) := Resume(st', calls[1..]);
      (st'', sent + more, final)
  }

  lemma {:induction false} AllPlainsConcat(a: seq<Sent>, b: seq<Sent>)
    ensures AllPlains(a + b) == AllPlains(a) + AllPlains(b)
    decreases |a|
  {
    if a == [] {
      assert a + b == b;
    } else {
      AllPlainsConcat(a[1..], b);
      assert (a + b)[0] == a[0] && (a + b)[1..] == a[1..] + b;
    }
  }

  lemma {:induction false} ResumeWalks(st: SendState, calls: seq<Call>)
    requires WriteInv(st.ws) && CursorOk(st.msgs, st.cur) && calls != []
    ensures var (st', sent, result) := Resume(st, calls);
            && Walk(st.msgs, st.cur, AllPlains(sent)).Some? && st'.msgs == st.msgs
            && (result != SealFailed ==> Walk(st.msgs, st.cur, AllPlains(sent)) == Some(st'.cur))
            && (result.FlightDone? ==> st'.cur.written == |st.msgs| && st'.cur.offset == 0)
    decreases |calls|
  {
    var (st', sent, result) := SendFlight(st, calls[0].mtu, calls[0].bio, 0, calls[0].flushOk);
    FlightWalks(st, calls[0].mtu, calls[0].bio, 0, calls[0].flushOk);
    if |calls| > 1 && result.TransportFailed? {
      ResumeWalks(st', calls[1..]);
      var more := Resume(st', calls[1..]).1;
      AllPlainsConcat(sent, more);
      WalkConcat(st.msgs, st.cur, AllPlains(sent), AllPlains(more));
    }
  }

  /** The bodies carried by handshake records, in order. */
  ghost function CarriedBodies(plains: seq<Plain>): seq<byte> {
    if plains == [] then []
    else (if plains[0].typ == RT_HANDSHAKE && |plains[0].payload| >= HM_HEADER_LENGTH
          then plains[0].payload[HM_HEADER_LENGTH..] else []) + CarriedBodies(plains[1..])
  }

  /** The bodies of the queued messages from the cursor on. */
  ghost function BodiesFrom(msgs: seq<OutMsg>, c: Cursor): seq<byte>
    requires c.written <= |msgs|
    decreases |msgs| - c.written
  {
    if c.written == |msgs| then []
    else
      var parsed := ParseQueued(msgs[c.written].data);
      (if msgs[c.written].isCcs || parsed.None? || c.offset > |parsed.value.1| then []
       else parsed.value.1[c.offset..]) + BodiesFrom(msgs, Cursor(c.written + 1, 0))
  }

  /** Records that walk from c carry exactly the bytes between c and where they end. */
  lemma {:induction false} WalkCarries(msgs: seq<OutMsg>, c: Cursor, plains: seq<Plain>)
    requires c.written <= |msgs| && Walk(msgs, c, plains).Some?
    ensures Walk(msgs, c, plains).value.written <= |msgs|
    ensures BodiesFrom(msgs, c) == CarriedBodies(plains) + BodiesFrom(msgs, Walk(msgs, c, plains).value)
    decreases |plains|
  {
    if plains != [] {
      StepCarries(msgs, c, plains[0]);
      WalkCarries(msgs, StepCursor(msgs, c, plains[0]).value, plains[1..]);
    }
  }

  /** A record moves the cursor over the bytes it carries. */
  lemma StepCarries(msgs: seq<OutMsg>, c: Cursor, plain: Plain)
    requires c.written <= |msgs| && StepCursor(msgs, c, plain).Some?
    ensures var c' := StepCursor(msgs, c, plain).value;
            c'.written <= |msgs| && BodiesFrom(msgs, c) == CarriedBodies([plain]) + BodiesFrom(msgs, c')
    ensures CarriedBodies([plain]) == if plain.typ == RT_HANDSHAKE && |plain.payload| >= HM_HEADER_LENGTH
                                      then plain.payload[HM_HEADER_LENGTH..] else []
  {
    hide ParseQueued;
    hide Header.Write;
    assert [plain][1..] == [];
    assert CarriedBodies([]) == [];
    if !msgs[c.written].isCcs {
      var (hdr, body) := ParseQueued(msgs[c.written].data).value;
      var len := |plain.payload| - HM_HEADER_LENGTH;
      assert plain.payload[HM_HEADER_LENGTH..] == body[c.offset..c.offset + len];
      assert body[c.offset..] == body[c.offset..c.offset + len] + body[c.offset + len..];
    }
  }

  /**
   A flight sent from its start, over any transport failures and resumptions and any MTUs, carries
   each message body once, in order and without gap when it completes.
   */
  lemma CompletedFlightCarriesAll(st: SendState, calls: seq<Call>)
    requires WriteInv(st.ws) && st.cur == Cursor(0, 0) && calls != []
    requires Resume(st, calls).2.FlightDone?
    ensures Walk(st.msgs, Cursor(0, 0), AllPlains(Resume(st, calls).1)) == Some(Cursor(|st.msgs|, 0))
    ensures CarriedBodies(AllPlains(Resume(st, calls).1)) == BodiesFrom(st.msgs, Cursor(0, 0))
  {
    ResumeWalks(st, calls);
    WalkCarries(st.msgs, Cursor(0, 0), AllPlains(Resume(st, calls).1));
  }

  /** A walk to the end passes every octet of every message still ahead, an empty one too, in some record. */
  lemma {:induction false} WalkCovers(msgs: seq<OutMsg>, c: Cursor, plains: seq<Plain>, i: nat, k: nat)
      returns (plain: Plain, off: nat, len: nat)
    requires Walk(msgs, c, plains) == Some(Cursor(|msgs|, 0))
    requires c.written <= i < |msgs| && !msgs[i].isCcs && ParseQueued(msgs[i].data).Some?
    requires k < |ParseQueued(msgs[i].data).value.1| || (k == 0 && ParseQueued(msgs[i].data).value.1 == [])
    requires c.written == i ==> c.offset <= k
    ensures plain in plains && plain.typ == RT_HANDSHAKE && plain.epoch == msgs[i].epoch
    ensures var m := ParseQueued(msgs[i].data).value;
            && off <= k && off + len <= |m.1| && (k < off + len || m.1 == [])
            && plain.payload == Fragment(m.0, m.1, off, len)
    decreases |plains|
  {
    hide ParseQueued, Fragment;
    var c' := StepCursor(msgs, c, plains[0]).value;
    var body := ParseQueued(msgs[i].data).value.1;
    if c.written == i && (k < c.offset + |plains[0].payload| - HM_HEADER_LENGTH || body == []) {
      plain, off, len := plains[0], c.offset, |plains[0].payload| - HM_HEADER_LENGTH;
    } else {
      plain, off, len := WalkCovers(msgs, c', plains[1..], i, k);
    }
  }

  /**
   A retransmission starts over: however far the flight had got, its records walk from the first message to
   the last, and carry every body again.
   */
  lemma RetransmissionCarriesAll(st: SendState, calls: seq<Call>)
    requires WriteInv(st.ws) && calls != [] && Resume(Rewind(st), calls).2.FlightDone?
    ensures Walk(st.msgs, Cursor(0, 0), AllPlains(Resume(Rewind(st), calls).1)) == Some(Cursor(|st.msgs|, 0))
    ensures CarriedBodies(AllPlains(Resume(Rewind(st), calls).1)) == BodiesFrom(st.msgs, Cursor(0, 0))
  {
    hide Resume, Walk, CarriedBodies, BodiesFrom, AllPlains, WriteInv;
    CompletedFlightCarriesAll(Rewind(st), calls);
  }

  // ---- Datagrams fit the MTU -------------------------------------------------------------------

  /** All keys the writer may use are ideal. */
  ghost predicate IdealKeys(ws: WriteState) {
    && (ws.current.aead.isNull || ws.current.aead.Ideal())
    && (ws.previous.Some? ==> ws.previous.value.aead.isNull || ws.previous.value.aead.Ideal())
  }

  lemma SealedLength(ws: WriteState, usePrevious: bool, typ: byte, payload: seq<byte>, maxOut: nat)
    requires WriteInv(ws) && Usable(ws, usePrevious) && IdealKeys(ws)
    ensures var r := SealRecord(ws, usePrevious, typ, payload, maxOut).1;
            r.Sealed? ==> |r.record| <= maxOut
  {
    var key := Key(ws, usePrevious).aead;
    if maxOut >= RT_HEADER_LENGTH {
      key.SealLength(typ, ws.current.aead.recordVersion, WireSeq(ws, usePrevious), payload,
                     Draw(ws.entropy, ws.drawn, key.layout.variableLen), maxOut - RT_HEADER_LENGTH);
    }
  }

  lemma SealMessageFits(st: SendState, maxOut: nat)
    requires WriteInv(st.ws) && IdealKeys(st.ws) && st.cur.written < |st.msgs|
    ensures SealMessage(st, maxOut).1.Progress? ==> |SealMessage(st, maxOut).1.bytes| <= maxOut
  {
    hide SealRecord;
    var plan := PlanMessage(st, maxOut);
    if plan.PlanSeal? {
      SealedLength(st.ws, plan.usePrevious, plan.typ, plan.payload, maxOut);
    }
  }

  lemma {:induction false} PacketFits(st: SendState, maxOut: nat, bytes: seq<byte>, plains: seq<Plain>)
    requires WriteInv(st.ws) && IdealKeys(st.ws)
    ensures var result := SealPacket(st, maxOut, bytes, plains).1;
            result.Packet? ==> |result.bytes| <= |bytes| + maxOut
    decreases |st.msgs| - st.cur.written
  {
    hide SealMessage;
    if st.cur.written < |st.msgs| {
      SealMessageFrame(st, maxOut);
      SealMessageFits(st, maxOut);
      var (st', result) := SealMessage(st, maxOut);
      if result.Progress? && !result.partial {
        PacketFits(st'.(cur := Cursor(st.cur.written + 1, st'.cur.offset)), maxOut - |result.bytes|,
                   bytes + result.bytes, plains + [result.plain]);
      }
    }
  }

  /** Every datagram handed to the transport fits the MTU. */
  lemma {:induction false} FlightFitsMtu(st: SendState, mtu: nat, bio: nat -> bool, k: nat, flushOk: bool)
    requires WriteInv(st.ws) && CursorOk(st.msgs, st.cur) && IdealKeys(st.ws)
    ensures forall i | 0 <= i < |SendFlight(st, mtu, bio, k, flushOk).1| ::
              0 < |SendFlight(st, mtu, bio, k, flushOk).1[i].plains|
              && |SendFlight(st, mtu, bio, k, flushOk).1[i].bytes| <= mtu
    decreases |st.msgs| - st.cur.written, BodyLeft(st)
  {
    if st.cur.written < |st.msgs| {
      PacketWalks(st, mtu, [], []);
      PacketFits(st, mtu, [], []);
      var (st', result) := SealPacket(st, mtu, [], []);
      if result.Packet? && bio(k) {
        PacketAdvances(st, mtu);
        FlightFitsMtu(st', mtu, bio, k + 1, flushOk);
      }
    }
  }

  // ---- When sealing fails ----------------------------------------------------------------------

  /** The records that go into a packet before it is full, the flight is over or a seal fails. */
  ghost function Packed(st: SendState, maxOut: nat): seq<Plain>
    requires WriteInv(st.ws)
    decreases |st.msgs| - st.cur.written
  {
    if st.cur.written >= |st.msgs| then []
    else
      SealMessageFrame(st, maxOut);
      var (st', result) := SealMessage(st, maxOut);
      if !result.Progress? then []
      else if result.partial then [result.plain]
      else [result.plain] + Packed(st'.(cur := Cursor(st.cur.written + 1, st'.cur.offset)),
                                   if |result.bytes| <= maxOut then maxOut - |result.bytes| else 0)
  }

  /** Whatever becomes of a packet, the cursor has walked over exactly what went into it. */
  lemma {:induction false} PackedWalks(st: SendState, maxOut: nat, bytes: seq<byte>, plains: seq<Plain>)
    requires WriteInv(st.ws) && CursorOk(st.msgs, st.cur)
    ensures Walk(st.msgs, st.cur, Packed(st, maxOut)) == Some(SealPacket(st, maxOut, bytes, plains).0.cur)
    decreases |st.msgs| - st.cur.written
  {
    hide SealMessage, StepCursor;
    if st.cur.written < |st.msgs| {
      SealMessageFrame(st, maxOut);
      SealMessageSteps(st, maxOut);
      var (st', result) := SealMessage(st, maxOut);
      if result.Progress? {
        var next := if result.partial then st'.cur else Cursor(st.cur.written + 1, 0);
        if result.partial {
          WalkStep(st.msgs, st.cur, result.plain, []);
        } else {
          var room := if |result.bytes| <= maxOut then maxOut - |result.bytes| else 0;
          PackedWalks(st'.(cur := next), room, bytes + result.bytes, plains + [result.plain]);
          WalkStep(st.msgs, st.cur, result.plain, Packed(st'.(cur := next), room));
        }
      }
    }
  }

  /** Where the last packet send_flight tried began. */
  ghost function LastPacket(st: SendState, mtu: nat, bio: nat -> bool, k: nat): (last: SendState)
    requires WriteInv(st.ws) && CursorOk(st.msgs, st.cur)
    ensures WriteInv(last.ws) && CursorOk(last.msgs, last.cur) && last.msgs == st.msgs
    decreases |st.msgs| - st.cur.written, BodyLeft(st)
  {
    hide SealPacket;
    if st.cur.written >= |st.msgs| then st
    else
      PacketAdvances(st, mtu);
      var (st', result) := SealPacket(st, mtu, [], []);
      if result.Packet? && bio(k) then LastPacket(st', mtu, bio, k + 1) else st
  }

  /** What was sent ends where the last packet began, and the cursor is left past what went into that. */
  lemma {:induction false} FailedFlight(st: SendState, mtu: nat, bio: nat -> bool, k: nat, flushOk: bool)
    requires WriteInv(st.ws) && CursorOk(st.msgs, st.cur) && SendFlight(st, mtu, bio, k, flushOk).2.SealFailed?
    ensures var (st', sent, _) := SendFlight(st, mtu, bio, k, flushOk);
            var last := LastPacket(st, mtu, bio, k);
            && last.cur.written < |last.msgs|
            && Walk(st.msgs, st.cur, AllPlains(sent)) == Some(last.cur)
            && Walk(st.msgs, last.cur, Packed(last, mtu)) == Some(st'.cur)
            && SealPacket(last, mtu, [], []).1.PacketError?
    decreases |st.msgs| - st.cur.written, BodyLeft(st)
  {
    hide SealPacket, StepCursor, Packed;
    PackedWalks(st, mtu, [], []);
    var (st', result) := SealPacket(st, mtu, [], []);
    if result.Packet? && bio(k) {
      PacketAdvances(st, mtu);
      PacketWalks(st, mtu, [], []);
      FailedFlight(st', mtu, bio, k + 1, flushOk);
      var sent := SendFlight(st', mtu, bio, k + 1, flushOk).1;
      assert result.plains[0..] == result.plains;
      WalkConcat(st.msgs, st.cur, result.plains, AllPlains(sent));
      assert ([Sent(result.bytes, result.plains)] + sent)[1..] == sent;
    }
  }

  /**
   The rollback covers transport failures only.  After a failed seal the cursor stands where the next
   call must resume if and only if the message that failed was the first of its packet; otherwise it
   stands past messages that were dropped with the packet.
   */
  lemma ResumableExactly(st: SendState, mtu: nat, bio: nat -> bool, k: nat, flushOk: bool)
    requires WriteInv(st.ws) && CursorOk(st.msgs, st.cur) && SendFlight(st, mtu, bio, k, flushOk).2.SealFailed?
    ensures var (st', sent, _) := SendFlight(st, mtu, bio, k, flushOk);
            var last := LastPacket(st, mtu, bio, k);
            && last.cur.written < |last.msgs|
            && (Walk(st.msgs, st.cur, AllPlains(sent)) == Some(st'.cur) <==> !SealMessage(last, mtu).1.Progress?)
            && Walk(st.msgs, st.cur, AllPlains(sent) + Packed(last, mtu)) == Some(st'.cur)
  {
    hide SealMessage, StepCursor, Walk, SendFlight, SealPacket;
    FailedFlight(st, mtu, bio, k, flushOk);
    var (st', sent, _) := SendFlight(st, mtu, bio, k, flushOk);
    var last := LastPacket(st, mtu, bio, k);
    WalkConcat(st.msgs, st.cur, AllPlains(sent), Packed(last, mtu));
    if Packed(last, mtu) == [] {
      WalkNothing(st.msgs, last.cur);
    } else {
      WalkAdvances(st.msgs, last.cur, Packed(last, mtu));
    }
  }

  lemma WalkNothing(msgs: seq<OutMsg>, c: Cursor)
    ensures Walk(msgs, c, []) == Some(c)
  {
  }

  /** With room for the plan, a seal fails exactly at the counter's last value or for a record of 2^16 octets. */
  lemma SealFailsExactly(ws: WriteState, usePrevious: bool, typ: byte, payload: seq<byte>, maxOut: nat)
    requires WriteInv(ws) && Usable(ws, usePrevious) && IdealKeys(ws)
    requires RT_HEADER_LENGTH + |payload| + Key(ws, usePrevious).aead.MaxOverhead() <= maxOut
    ensures SealRecord(ws, usePrevious, typ, payload, maxOut).1.Failed? <==>
              Key(ws, usePrevious).next == SEQ_LIMIT - 1
              || SealedSize(Key(ws, usePrevious).aead, |payload|) >= 0x1_0000
  {
    var key := Key(ws, usePrevious).aead;
    key.SealLength(typ, ws.current.aead.recordVersion, WireSeq(ws, usePrevious), payload,
                   Draw(ws.entropy, ws.drawn, key.layout.variableLen), maxOut - RT_HEADER_LENGTH);
  }

  /** The length a record's header has to hold. */
  function SealedSize(a: Aead, len: nat): nat {
    (if a.isNull then 0 else a.ExplicitNonceLen()) + len + a.SuffixLen(len)
  }

  /**
   What a caller can check before a flight: each message left parses and has the current or the previous
   epoch, no record it is cut into can reach 2^16 octets, and neither counter can reach its last value
   before all octets left have gone out, one to a record.
   */
  ghost predicate Sendable(st: SendState, mtu: nat) {
    && IdealKeys(st.ws)
    && (forall i | st.cur.written <= i < |st.msgs| :: MessageSendable(st.ws, st.msgs[i], mtu))
    && st.ws.current.next + Budget(st.msgs, st.cur) < SEQ_LIMIT
    && (st.ws.previous.Some? ==> st.ws.previous.value.next + Budget(st.msgs, st.cur) < SEQ_LIMIT)
  }

  ghost predicate MessageSendable(ws: WriteState, msg: OutMsg, mtu: nat) {
    && EpochChoice(ws, msg).Some?
    && (EpochChoice(ws, msg).value ==> ws.previous.Some?)
    && (!msg.isCcs ==> ParseQueued(msg.data).Some?)
    && var overhead := (if EpochChoice(ws, msg).value then ws.previous.value else ws.current).aead.MaxOverhead();
       mtu <= RT_HEADER_LENGTH + 0xffff || (if msg.isCcs then 1 else |msg.data|) + overhead <= 0xffff
  }

  /** At most this many records are left: one for each octet, and one for each message. */
  function Budget(msgs: seq<OutMsg>, c: Cursor): int {
    BudgetFrom(msgs, c.written) - c.offset
  }

  function BudgetFrom(msgs: seq<OutMsg>, written: nat): nat
    decreases |msgs| - written
  {
    if written >= |msgs| then 0 else |msgs[written].data| + 1 + BudgetFrom(msgs, written + 1)
  }

  lemma BudgetPositive(st: SendState)
    requires CursorOk(st.msgs, st.cur) && st.cur.written < |st.msgs|
    ensures Budget(st.msgs, st.cur) >= 1
  {
    hide ParseQueued;
  }

  lemma QueuedLength(data: seq<byte>)
    requires ParseQueued(data).Some?
    ensures |data| == HM_HEADER_LENGTH + |ParseQueued(data).value.1|
  {
    WriteOfParse(data);
  }

  /** Every record planned under these conditions has room, keeps below 2^16 octets and gets a number. */
  lemma PlanSendable(st: SendState, maxOut: nat, mtu: nat)
    requires WriteInv(st.ws) && CursorOk(st.msgs, st.cur) && st.cur.written < |st.msgs|
    requires Sendable(st, mtu) && maxOut <= mtu
    ensures var plan := PlanMessage(st, maxOut);
            && !plan.PlanError?
            && (plan.PlanSeal? ==>
                  && Usable(st.ws, plan.usePrevious)
                  && RT_HEADER_LENGTH + |plan.payload| + Key(st.ws, plan.usePrevious).aead.MaxOverhead() <= maxOut
                  && |plan.payload| + Key(st.ws, plan.usePrevious).aead.MaxOverhead() <= 0xffff
                  && (plan.partial ==> plan.cur.written == st.cur.written && plan.cur.offset > st.cur.offset))
  {
    hide ParseQueued, Fragment;
    assert MessageSendable(st.ws, st.msgs[st.cur.written], mtu);
    var msg := st.msgs[st.cur.written];
    if !msg.isCcs { QueuedLength(msg.data); }
  }

  lemma SizeWithin(a: Aead, len: nat)
    requires a.isNull || a.Ideal()
    ensures SealedSize(a, len) <= len + a.MaxOverhead()
  {
  }

  lemma SealSendable(st: SendState, maxOut: nat, mtu: nat)
    requires WriteInv(st.ws) && CursorOk(st.msgs, st.cur) && st.cur.written < |st.msgs|
    requires Sendable(st, mtu) && maxOut <= mtu
    ensures var (st', result) := SealMessage(st, maxOut);
            && !result.SealError?
            && (result.Progress? ==>
                  Sendable(st'.(cur := if result.partial then st'.cur else Cursor(st.cur.written + 1, 0)), mtu))
  {
    PlanSendable(st, maxOut, mtu);
    BudgetPositive(st);
    var plan := PlanMessage(st, maxOut);
    hide PlanMessage;
    if plan.PlanSeal? {
      SizeWithin(Key(st.ws, plan.usePrevious).aead, |plan.payload|);
      SealFailsExactly(st.ws, plan.usePrevious, plan.typ, plan.payload, maxOut);
      SealSteps(st.ws, plan.usePrevious, plan.typ, plan.payload, maxOut);
      hide SealRecord;
      SendableOn(st, SealMessage(st, maxOut).0.ws, mtu,
                 if plan.partial then plan.cur else Cursor(st.cur.written + 1, 0));
    }
  }

  /** A seal moves one of the two counters by at most one. */
  lemma SealSteps(ws: WriteState, usePrevious: bool, typ: byte, payload: seq<byte>, maxOut: nat)
    requires WriteInv(ws) && Usable(ws, usePrevious)
    ensures CountersClose(ws, SealRecord(ws, usePrevious, typ, payload, maxOut).0)
  {
  }

  ghost predicate CountersClose(ws: WriteState, ws': WriteState) {
    && ws'.epoch == ws.epoch && ws'.current.aead == ws.current.aead && ws'.current.next <= ws.current.next + 1
    && ws'.previous.Some? == ws.previous.Some?
    && (ws.previous.Some? ==>
          ws'.previous.value.aead == ws.previous.value.aead && ws'.previous.value.next <= ws.previous.value.next + 1)
  }

  lemma SendableOn(st: SendState, ws: WriteState, mtu: nat, next: Cursor)
    requires Sendable(st, mtu) && CursorOk(st.msgs, st.cur) && CountersClose(st.ws, ws) && st.cur.written < |st.msgs|
    requires next == Cursor(st.cur.written + 1, 0) || (next.written == st.cur.written && next.offset > st.cur.offset)
    ensures Sendable(st.(ws := ws, cur := next), mtu)
  {
    hide ParseQueued;
    var st' := st.(ws := ws, cur := next);
    BudgetPositive(st);
    forall i | next.written <= i < |st.msgs| ensures MessageSendable(ws, st.msgs[i], mtu) {
      assert MessageSendable(st.ws, st.msgs[i], mtu);
    }
  }

  /** A packet then fails only for want of room, with nothing in it. */
  lemma {:induction false} PacketSendable(st: SendState, maxOut: nat, mtu: nat, bytes: seq<byte>, plains: seq<Plain>)
    requires WriteInv(st.ws) && CursorOk(st.msgs, st.cur) && Sendable(st, mtu) && maxOut <= mtu
    ensures var (st', result) := SealPacket(st, maxOut, bytes, plains);
            && Sendable(st', mtu)
            && (result.PacketError? ==>
                  plains == [] && (st.cur.written >= |st.msgs| || SealMessage(st, maxOut).1.NoProgress?))
    decreases |st.msgs| - st.cur.written
  {
    hide SealMessage, Sendable;
    if st.cur.written < |st.msgs| {
      SealMessageFrame(st, maxOut);
      SealMessageSteps(st, maxOut);
      SealSendable(st, maxOut, mtu);
      var (st', result) := SealMessage(st, maxOut);
      if result.NoProgress? {
        SendableSame(st, st', mtu, maxOut);
      } else if !result.partial {
        PacketSendable(st'.(cur := Cursor(st.cur.written + 1, st'.cur.offset)),
                       if |result.bytes| <= maxOut then maxOut - |result.bytes| else 0, mtu,
                       bytes + result.bytes, plains + [result.plain]);
      }
    }
  }

  lemma SendableSame(st: SendState, st': SendState, mtu: nat, maxOut: nat)
    requires WriteInv(st.ws) && st.cur.written < |st.msgs| && Sendable(st, mtu)
    requires SealMessage(st, maxOut) == (st', NoProgress)
    ensures Sendable(st', mtu)
  {
    hide SealRecord, PlanMessage, Sendable;
  }

  /** Room for one octet of a message, header and overhead included, under either key. */
  predicate Roomy(ws: WriteState, mtu: nat) {
    && RT_HEADER_LENGTH + HM_HEADER_LENGTH + 1 + ws.current.aead.MaxOverhead() <= mtu
    && (ws.previous.Some? ==>
          RT_HEADER_LENGTH + HM_HEADER_LENGTH + 1 + ws.previous.value.aead.MaxOverhead() <= mtu)
  }

  lemma RoomyPlans(st: SendState, mtu: nat)
    requires WriteInv(st.ws) && st.cur.written < |st.msgs| && Roomy(st.ws, mtu)
    ensures !SealMessage(st, mtu).1.NoProgress?
  {
    hide SealRecord, ParseQueued, Fragment;
  }

  /**
   A flight whose caller has checked all that loses nothing however its packets fare: the cursor is always
   left where the next call must resume, and with room for an octet under either key no seal fails.
   */
  lemma {:induction false} SendableLosesNothing(st: SendState, mtu: nat, bio: nat -> bool, k: nat, flushOk: bool)
    requires WriteInv(st.ws) && CursorOk(st.msgs, st.cur) && Sendable(st, mtu)
    ensures var (st', sent, result) := SendFlight(st, mtu, bio, k, flushOk);
            && Walk(st.msgs, st.cur, AllPlains(sent)) == Some(st'.cur)
            && (result.SealFailed? ==>
                  var last := LastPacket(st, mtu, bio, k);
                  last.cur.written < |last.msgs| && SealMessage(last, mtu).1.NoProgress?)
            && (Roomy(st.ws, mtu) ==> !result.SealFailed?)
  {
    hide SealMessage, SealPacket, Sendable, Walk, StepCursor, SendFlight;
    FlightWalks(st, mtu, bio, k, flushOk);
    var (st', sent, result) := SendFlight(st, mtu, bio, k, flushOk);
    if result.SealFailed? {
      LastSendable(st, mtu, bio, k);
      FailedFlight(st, mtu, bio, k, flushOk);
      var last := LastPacket(st, mtu, bio, k);
      PacketSendable(last, mtu, mtu, [], []);
      ResumableExactly(st, mtu, bio, k, flushOk);
      if Roomy(st.ws, mtu) { RoomyPlans(last, mtu); }
    }
  }

  /** A call fails for the transport's sake only if the transport has failed. */
  lemma {:induction false} TransportToBlame(st: SendState, mtu: nat, bio: nat -> bool, k: nat, flushOk: bool)
    requires WriteInv(st.ws) && CursorOk(st.msgs, st.cur) && SendFlight(st, mtu, bio, k, flushOk).2.TransportFailed?
    ensures !flushOk || exists j :: k <= j && !bio(j)
    decreases |st.msgs| - st.cur.written, BodyLeft(st)
  {
    hide SealPacket, CursorOk, WriteInv, Walk, SameKeys;
    if st.cur.written < |st.msgs| {
      PacketAdvances(st, mtu);
      PacketWalks(st, mtu, [], []);
      if bio(k) {
        TransportToBlame(SealPacket(st, mtu, [], []).0, mtu, bio, k + 1, flushOk);
      }
    }
  }

  /** So over a working transport one call sends a flight that meets these conditions to its end. */
  lemma SendableIsSent(st: SendState, mtu: nat, bio: nat -> bool)
    requires WriteInv(st.ws) && CursorOk(st.msgs, st.cur) && Sendable(st, mtu) && Roomy(st.ws, mtu)
    requires forall k :: bio(k)
    ensures SendFlight(st, mtu, bio, 0, true).2.FlightDone?
    ensures Walk(st.msgs, st.cur, AllPlains(SendFlight(st, mtu, bio, 0, true).1)) == Some(Cursor(|st.msgs|, 0))
  {
    hide SendFlight, Sendable, Walk, AllPlains, WriteInv, Roomy;
    SendableLosesNothing(st, mtu, bio, 0, true);
    FlightWalks(st, mtu, bio, 0, true);
    var result := SendFlight(st, mtu, bio, 0, true).2;
    if result.TransportFailed? { TransportToBlame(st, mtu, bio, 0, true); }
  }

  lemma {:induction false} LastSendable(st: SendState, mtu: nat, bio: nat -> bool, k: nat)
    requires WriteInv(st.ws) && CursorOk(st.msgs, st.cur) && Sendable(st, mtu)
    ensures Sendable(LastPacket(st, mtu, bio, k), mtu)
    ensures SameKeys(st.ws, LastPacket(st, mtu, bio, k).ws)
    decreases |st.msgs| - st.cur.written, BodyLeft(st)
  {
    hide SealMessage, SealPacket, Sendable;
    if st.cur.written < |st.msgs| {
      PacketAdvances(st, mtu);
      PacketWalks(st, mtu, [], []);
      PacketSendable(st, mtu, mtu, [], []);
      var (st', result) := SealPacket(st, mtu, [], []);
      if result.Packet? && bio(k) { LastSendable(st', mtu, bio, k + 1); }
    }
  }

  /** Two queued messages of a fresh connection. */
  function TwoQueued(ws: WriteState, hello: seq<byte>, certificate: seq<byte>): SendState
    requires |hello| <= 1000 && |certificate| < U24
  {
    var st := SendState([], Cursor(0, 0), ws, false, false, 0);
    AddOutgoing(AddOutgoing(st, Raw(2, 0, hello), false).0, Raw(11, 1, certificate), false).0
  }

  /**
   Outside these conditions messages do get lost: with an MTU that lets a record reach 2^16 octets, which
   SSL_set_mtu accepts, a long certificate message fails to seal and the ServerHello that shared its packet,
   and never left, is not sent again by the next call.
   */
  lemma SealFailureSkips(ws: WriteState, hello: seq<byte>, certificate: seq<byte>, mtu: nat, bio: nat -> bool)
    requires WriteInv(ws) && ws.epoch == 0 && ws.current.next == 0 && ws.current.aead.isNull
    requires !ws.current.aead.layout.inRecord
    requires |hello| <= 1000 && 70000 <= |certificate| < U24 && mtu >= 70000
    ensures var st := TwoQueued(ws, hello, certificate);
            var (st', sent, result) := SendFlight(st, mtu, bio, 0, true);
            result.SealFailed? && sent == [] && st'.cur == Cursor(1, 0)
  {
    var st := TwoQueued(ws, hello, certificate);
    QueuedRaw(2, 0, hello);
    QueuedRaw(11, 1, certificate);
    assert st.msgs == [OutMsg(Raw(2, 0, hello), 0, false), OutMsg(Raw(11, 1, certificate), 0, false)];
    hide ParseQueued, Raw, AddOutgoing;
    FirstSeals(st, hello, mtu);
    SealMessageFrame(st, mtu);
    var (st1, first) := SealMessage(st, mtu);
    SecondFails(st1.(cur := Cursor(1, 0)), certificate, mtu - |first.bytes|);
    hide SealMessage;
    FirstThenError(st, mtu);
  }

  /** A packet whose first message is sealed whole and whose second fails. */
  lemma FirstThenError(st: SendState, mtu: nat)
    requires WriteInv(st.ws) && |st.msgs| == 2 && st.cur == Cursor(0, 0)
    requires var (st1, first) := SealMessage(st, mtu);
             && first.Progress? && !first.partial && |first.bytes| <= mtu && st1.cur == Cursor(0, 0)
             && st1.msgs == st.msgs && WriteInv(st1.ws)
             && SealMessage(st1.(cur := Cursor(1, 0)), mtu - |first.bytes|).1.SealError?
    ensures SealPacket(st, mtu, [], []).1 == PacketError && SealPacket(st, mtu, [], []).0.cur == Cursor(1, 0)
  {
    hide SealMessage;
    var (st1, first) := SealMessage(st, mtu);
    var st2, room := st1.(cur := Cursor(1, 0)), mtu - |first.bytes|;
    SealMessageFrame(st2, room);
    assert SealPacket(st2, room, [] + first.bytes, [] + [first.plain]) == (SealMessage(st2, room).0, PacketError);
  }

  lemma QueuedRaw(typ: byte, seqNum: nat, body: seq<byte>)
    requires seqNum < U16 && |body| < U24
    ensures ParseQueued(Raw(typ, seqNum, body)) == Some((Header(typ, |body|, seqNum, 0, |body|), body))
  {
    var hdr := Header(typ, |body|, seqNum, 0, |body|);
    assert Raw(typ, seqNum, body) == hdr.Write() + body + [];
    ParseOfWrite(hdr, body, []);
  }

  lemma FirstSeals(st: SendState, hello: seq<byte>, mtu: nat)
    requires WriteInv(st.ws) && st.ws.epoch == 0 && st.ws.current.next == 0 && st.ws.current.aead.isNull
    requires !st.ws.current.aead.layout.inRecord && st.cur == Cursor(0, 0) && |st.msgs| == 2
    requires !st.msgs[0].isCcs && st.msgs[0].epoch == 0 && |hello| <= 1000 && mtu >= 70000
    requires ParseQueued(st.msgs[0].data) == Some((Header(2, |hello|, 0, 0, |hello|), hello))
    ensures var (st', result) := SealMessage(st, mtu);
            && result.Progress? && !result.partial && |result.bytes| == 25 + |hello|
            && st'.cur == Cursor(0, 0) && st'.ws.current.aead == st.ws.current.aead && st'.ws.epoch == 0
  {
    hide ParseQueued;
  }

  lemma SecondFails(st: SendState, certificate: seq<byte>, room: nat)
    requires WriteInv(st.ws) && st.ws.epoch == 0 && st.ws.current.aead.isNull
    requires !st.ws.current.aead.layout.inRecord && st.cur == Cursor(1, 0) && |st.msgs| == 2
    requires !st.msgs[1].isCcs && st.msgs[1].epoch == 0 && |certificate| >= 70000 && room >= 68000
    requires ParseQueued(st.msgs[1].data) == Some((Header(11, |certificate|, 1, 0, |certificate|), certificate))
    ensures SealMessage(st, room).1.SealError?
  {
    hide ParseQueued;
  }

  // ---- The code ---------------------------------------------------------------------------------

  class Sender {
    const writer: Writer
    var messages: seq<OutMsg>
    var written: nat
    var offset: nat
    var complete: bool
    var hasReply: bool
    var writeSeq: nat

    ghost predicate Valid()
      reads this, writer, writer.writeSequence, writer.lastWriteSequence
    {
      writer.Valid() && CursorOk(messages, Cursor(written, offset))
    }

    ghost function Abs(): SendState
      requires writer.Valid()
      reads this, writer, writer.writeSequence, writer.lastWriteSequence
    {
      SendState(messages, Cursor(written, offset), writer.Abs(), complete, hasReply, writeSeq)
    }

    constructor (writer: Writer)
      requires writer.Valid()
      ensures Valid() && this.writer == writer
      ensures Abs() == SendState([], Cursor(0, 0), writer.Abs(), false, false, 0)
    {
      this.writer := writer;
      messages, written, offset, complete, hasReply, writeSeq := [], 0, 0, false, false, 0;
    }

    /** dtls_clear_outgoing_messages. */
    method ClearOutgoing()
      requires Valid()
      modifies this
      ensures Valid() && Abs() == Clear(old(Abs()))
    {
      messages, written, offset, complete, hasReply := [], 0, 0, false, false;
    }

    /** add_outgoing, for a message or a ChangeCipherSpec. */
    method Add(isCcs: bool, data: seq<byte>) returns (ok: bool)
      requires Valid()
      modifies this
      ensures Valid() && (Abs(), ok) == AddOutgoing(old(Abs()), data, isCcs)
    {
      if complete {
        ClearOutgoing();
      }
      if |messages| >= MAX_FLIGHT || |data| > 0xffff_ffff {
        return false;
      }
      if !isCcs {
        writeSeq := (writeSeq + 1) % U16;
      }
      messages := messages + [OutMsg(data, writer.epoch, isCcs)];
      return true;
    }

    /** The epoch part of seal_next_message. */
    method ChooseEpoch(msg: OutMsg) returns (choice: Option<bool>)
      requires Valid()
      ensures choice == EpochChoice(writer.Abs(), msg)
    {
      if writer.epoch >= 1 && msg.epoch == writer.epoch - 1 {
        return Some(true);
      } else if msg.epoch != writer.epoch {
        return None;
      }
      return Some(false);
    }

    /** What seal_next_message decides before it seals. */
    method NextFragment(maxOut: nat) returns (plan: Plan)
      requires Valid() && written < |messages|
      ensures plan == PlanMessage(Abs(), maxOut)
    {
      hide ParseQueued;
      hide Fragment;
      hide CursorOk;
      var msg := messages[written];
      var choice := ChooseEpoch(msg);
      if choice.None? {
        return PlanError;
      }
      var key := if choice.value then writer.lastAead.value else writer.aead;
      var overhead := RT_HEADER_LENGTH + key.MaxOverhead();
      if msg.isCcs {
        if maxOut < 1 + overhead {
          return PlanNoRoom;
        }
        return PlanSeal(choice.value, RT_CHANGE_CIPHER_SPEC, [MT_CCS], Cursor(written, offset), false);
      }
      var parsed := ParseQueued(msg.data);
      if parsed.None? || offset > |parsed.value.1| {
        return PlanError;
      }
      var (hdr, body) := parsed.value;
      if maxOut < HM_HEADER_LENGTH + 1 + overhead {
        return PlanNoRoom;
      }
      var left := |body| - offset;
      var todo := left;
      if todo > maxOut - HM_HEADER_LENGTH - overhead {
        todo := maxOut - HM_HEADER_LENGTH - overhead;
      }
      return PlanSeal(choice.value, RT_HANDSHAKE, Fragment(hdr, body, offset, todo),
                      Cursor(written, if todo == left then 0 else offset + todo), todo < left);
    }

    /** seal_next_message. */
    method SealNextMessage(maxOut: nat) returns (result: SealMsg)
      requires Valid() && written < |messages|
      modifies this`offset, writer`drawn, writer.writeSequence, writer.lastWriteSequence
      ensures writer.Valid() && (Abs(), result) == SealMessage(old(Abs()), maxOut)
    {
      hide SealRecord;
      hide PlanMessage;
      ghost var st := Abs();
      PlanUsable(st, maxOut);
      var plan := NextFragment(maxOut);
      match plan
      case PlanError => return SealError;
      case PlanNoRoom => return NoProgress;
      case PlanSeal(usePrevious, typ, payload, cur, partial) =>
        var sealed := writer.Seal(usePrevious, typ, payload, maxOut);
        if sealed.Failed? {
          return SealError;
        }
        offset := cur.offset;
        return Progress(sealed.record, Plain(messages[written].epoch, typ, payload), partial);
    }

    /** seal_next_packet. */
    method SealNextPacket(maxOut: nat) returns (result: PacketResult)
      requires Valid()
      modifies this`written, this`offset, writer`drawn, writer.writeSequence, writer.lastWriteSequence
      ensures Valid() && (Abs(), result) == SealPacket(old(Abs()), maxOut, [], [])
    {
      hide SealMessage;
      hide StepCursor;
      hide CursorOk;
      hide SameKeys;
      ghost var st := Abs();
      PacketWalks(st, maxOut, [], []);
      var room: nat, bytes, plains := maxOut, [], [];
      while written < |messages|
        invariant writer.Valid() && messages == st.msgs && CursorOk(messages, Cursor(written, offset))
        invariant SealPacket(st, maxOut, [], []) == SealPacket(Abs(), room, bytes, plains)
        decreases |messages| - written
      {
        SealMessageFrame(Abs(), room);
        SealMessageSteps(Abs(), room);
        var sealed := SealNextMessage(room);
        if sealed.SealError? {
          return PacketError;
        } else if sealed.NoProgress? {
          break;
        }
        bytes := bytes + sealed.bytes;
        plains := plains + [sealed.plain];
        room := if |sealed.bytes| <= room then room - |sealed.bytes| else 0;
        if sealed.partial {
          break;
        }
        written := written + 1;
      }
      assert SealPacket(st, maxOut, [], []) == Full(Abs(), bytes, plains);
      return if plains == [] then PacketError else Packet(bytes, plains);
    }

    /** send_flight, given what the transport answers and an MTU settled by dtls1_update_mtu. */
    method SendFlightNow(mtu: nat, bio: nat -> bool, flushOk: bool) returns (sent: seq<Sent>, result: FlightResult)
      requires Valid()
      modifies this`written, this`offset, writer`drawn, writer.writeSequence, writer.lastWriteSequence
      ensures Valid() && (Abs(), sent, result) == SendFlight(old(Abs()), mtu, bio, 0, flushOk)
    {
      hide SealPacket;
      hide StepCursor;
      hide Walk;
      hide CursorOk;
      hide SameKeys;
      ghost var st := Abs();
      sent := [];
      var k: nat := 0;
      AfterNothing(SendFlight(st, mtu, bio, 0, flushOk));
      while written < |messages|
        invariant Valid() && messages == st.msgs
        invariant SendFlight(st, mtu, bio, 0, flushOk) == After(sent, SendFlight(Abs(), mtu, bio, k, flushOk))
        decreases |messages| - written, BodyLeft(Abs())
      {
        ghost var was := Abs();
        assert sent + [] == sent;
        var oldWritten, oldOffset := written, offset;
        PacketAdvances(was, mtu);
        var packet := SealNextPacket(mtu);
        if packet.PacketError? {
          return sent, SealFailed;
        }
        if !bio(k) {
          written, offset := oldWritten, oldOffset;
          return sent, TransportFailed;
        }
        AfterAfter(sent, Sent(packet.bytes, packet.plains), SendFlight(Abs(), mtu, bio, k + 1, flushOk));
        sent := sent + [Sent(packet.bytes, packet.plains)];
        k := k + 1;
      }
      assert sent + [] == sent;
      return sent, if flushOk then FlightDone else TransportFailed;
    }

    /** dtls1_flush_flight. */
    method Flush(mtu: nat, bio: nat -> bool, flushOk: bool) returns (sent: seq<Sent>, result: FlightResult)
      requires Valid()
      modifies this`written, this`offset, this`complete, writer`drawn, writer.writeSequence, writer.lastWriteSequence
      ensures Valid()
      ensures (Abs(), sent, result) == SendFlight(old(Abs()).(complete := true), mtu, bio, 0, flushOk)
    {
      complete := true;
      sent, result := SendFlightNow(mtu, bio, flushOk);
    }

    /** dtls1_retransmit_outgoing_messages. */
    method Retransmit(mtu: nat, bio: nat -> bool, flushOk: bool) returns (sent: seq<Sent>, result: FlightResult)
      requires Valid()
      modifies this`written, this`offset, writer`drawn, writer.writeSequence, writer.lastWriteSequence
      ensures Valid()
      ensures (Abs(), sent, result) == SendFlight(Rewind(old(Abs())), mtu, bio, 0, flushOk)
    {
      written, offset := 0, 0;
      sent, result := SendFlightNow(mtu, bio, flushOk);
    }
  }
}
