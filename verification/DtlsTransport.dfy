/**
 The whole DTLS handshake transport as a protocol: one endpoint queues messages, seals flights and
 retransmits; a network that may drop, duplicate and reorder datagrams lies between; the other
 endpoint opens records, reassembles and hands messages up.  In every run the receiver hands up, in
 order, exactly the byte arrays the sender queued.
 */
module DtlsTransport {
  import opened Wrappers
  import opened Bytes
  import opened Aead
  import opened DtlsFragment
  import opened DtlsReassembly
  import opened DtlsRecord
  import S = DtlsSender
  import V = DtlsReceiver

  /**
   A handshake message, with the write epoch it was queued in; its sequence number is its place in the sequence
   of messages queued.
   */
  datatype Message = Message(typ: byte, body: seq<byte>, epoch: nat)

  /** The key both ends use in each epoch. */
  type Keys = nat -> Aead

  ghost predicate KeysOk(keys: Keys) {
    && keys(0).isNull
    && forall e :: KeyOk(keys(e)) && keys(e).recordVersion < 0x1_0000 && (keys(e).isNull || keys(e).Ideal())
  }

  /**
   The sender with the messages it has queued, every datagram the network has ever been given, and
   the receiver: its current datagram, record layer and reassembly, and the messages it handed up.
   */
  datatype World = World(
    snd: S.SendState,
    sent: seq<Message>,
    net: set<seq<byte>>,
    buf: seq<byte>,
    rs: ReadState,
    rcv: V.RecvState,
    delivered: seq<seq<byte>>
  )

  datatype Step =
    | Queue(typ: byte, body: seq<byte>)
    | QueueChangeCipherSpec
    | ChangeWriteKey
    | Flush(mtu: nat, bio: nat -> bool, flushOk: bool)
    | Retransmit(mtu: nat, bio: nat -> bool, flushOk: bool)
    | FlightAnswered
    | HandshakeDone
    | Arrive(datagram: seq<byte>)
    | ProcessRecord
    | GetMessage
    | NextMessage
    | TakeChangeCipherSpec
    | ChangeReadKey

  // ---- The steps ------------------------------------------------------------------------------

  /** What the functions of the model ask of a state; part of the invariant below. */
  ghost predicate Sane(w: World) {
    && WriteInv(w.snd.ws) && S.CursorOk(w.snd.msgs, w.snd.cur)
    && V.RingInv(w.rcv) && ReadInv(w.rs)
  }

  /**
   When a step may be taken: fewer than 2^16 messages and key changes, datagrams only from the
   network, and dtls1_next_message's own assertions.
   */
  ghost predicate Enabled(w: World, step: Step)
    requires Sane(w)
  {
    match step
    case Queue(_, body) => |w.sent| + 1 < U16 && |body| < U24
    case ChangeWriteKey => w.snd.ws.epoch + 1 < EPOCH_LIMIT
    case ChangeReadKey => w.rs.epoch + 1 < EPOCH_LIMIT
    case Arrive(d) => d in w.net && w.buf == []
    case NextMessage => w.rcv.hasMessage && V.CurrentComplete(w.rcv)
    case _ => true
  }

  /** dtls1_add_message of a finished message. */
  function AddMessage(w: World, typ: byte, body: seq<byte>): World {
    var (snd', ok) := S.AddOutgoing(w.snd, S.Raw(typ, w.snd.writeSeq, body), false);
    w.(snd := snd', sent := if ok then w.sent + [Message(typ, body, w.snd.ws.epoch)] else w.sent)
  }

  function Datagrams(sent: seq<S.Sent>): set<seq<byte>> {
    set s | s in sent :: s.bytes
  }

  /** send_flight: every packet the transport took may travel from now on. */
  ghost function Send(w: World, snd: S.SendState, mtu: nat, bio: nat -> bool, flushOk: bool): World
    requires WriteInv(snd.ws) && S.CursorOk(snd.msgs, snd.cur)
  {
    var (snd', sent, _) := S.SendFlight(snd, mtu, bio, 0, flushOk);
    w.(snd := snd', net := w.net + Datagrams(sent))
  }

  function Rest(buf: seq<byte>, consumed: nat): seq<byte> {
    if consumed <= |buf| then buf[consumed..] else []
  }

  /** Open the next record of the current datagram and act on it. */
  ghost function Process(w: World): World
    requires Sane(w)
  {
    var (rs', result) := OpenRecord(w.rs, w.buf);
    match result
    case Opened(typ, plaintext, consumed) =>
      w.(rs := rs', buf := Rest(w.buf, consumed), rcv := V.OpenHandshake(w.rcv, typ, plaintext).0)
    case AlertRecord(_, consumed) => w.(rs := rs', buf := Rest(w.buf, consumed))
    case RecordOverflow(consumed) => w.(rs := rs', buf := Rest(w.buf, consumed))
    case Dropped(consumed) => w.(rs := rs', buf := Rest(w.buf, consumed))
    case NeedMore => w
    case CloseNotify => w.(buf := [])
  }

  ghost function Next(keys: Keys, w: World, step: Step): World
    requires Sane(w) && Enabled(w, step)
  {
    match step
    case Queue(typ, body) => AddMessage(w, typ, body)
    case QueueChangeCipherSpec => w.(snd := S.AddOutgoing(w.snd, [], true).0)
    case ChangeWriteKey => w.(snd := w.snd.(ws := SetWriteState(w.snd.ws, keys(w.snd.ws.epoch + 1))))
    case Flush(mtu, bio, flushOk) => Send(w, w.snd.(complete := true), mtu, bio, flushOk)
    case Retransmit(mtu, bio, flushOk) => Send(w, S.Rewind(w.snd), mtu, bio, flushOk)
    case FlightAnswered => w.(snd := w.snd.(hasReply := w.snd.hasReply || w.snd.complete))
    case HandshakeDone => w.(snd := if w.snd.hasReply then S.Clear(w.snd) else w.snd)
    case Arrive(d) => w.(buf := d)
    case ProcessRecord => Process(w)
    case GetMessage => if V.CurrentComplete(w.rcv) then w.(rcv := w.rcv.(hasMessage := true)) else w
    case NextMessage =>
      w.(delivered := w.delivered + [V.CurrentMessage(w.rcv)], rcv := V.NextMessage(w.rcv))
    case TakeChangeCipherSpec => w.(rcv := w.rcv.(hasCcs := false))
    case ChangeReadKey =>
      match V.SetReadState(w.rcv)
      case None => w
      case Some(rcv') => w.(rcv := rcv', rs := SetReadState(w.rs, keys(w.rs.epoch + 1)))
  }

  ghost predicate Fresh(keys: Keys, w: World) {
    && KeysOk(keys)
    && w.snd.msgs == [] && w.snd.cur == S.Cursor(0, 0) && w.snd.writeSeq == 0
    && !w.snd.complete && !w.snd.hasReply
    && WriteInv(w.snd.ws) && w.snd.ws.epoch == 0 && w.snd.ws.current.aead == keys(0)
    && w.sent == [] && w.net == {} && w.buf == [] && w.delivered == []
    && ReadInv(w.rs) && w.rs.epoch == 0 && w.rs.aead == keys(0)
    && w.rcv == V.Initial(w.rcv.maxLen)
  }

  ghost predicate IsRun(keys: Keys, run: seq<World>, steps: seq<Step>) {
    && |run| == |steps| + 1 && Fresh(keys, run[0])
    && forall i | 0 <= i < |steps| ::
         Sane(run[i]) && Enabled(run[i], steps[i]) && run[i + 1] == Next(keys, run[i], steps[i])
  }

  // ---- What may travel ------------------------------------------------------------------------

  /** Message n of the sender as one unfragmented byte array. */
  function RawOf(sent: seq<Message>, n: nat): seq<byte>
    requires n < |sent|
  {
    S.Raw(sent[n].typ, n, sent[n].body)
  }

  /** payload is the part [off, off + len) of message n. */
  predicate IsFragment(sent: seq<Message>, n: nat, off: nat, len: nat, payload: seq<byte>) {
    && n < |sent| && off + len <= |sent[n].body|
    && payload == Header(sent[n].typ, |sent[n].body|, n, off, len).Write() + sent[n].body[off..off + len]
  }

  /** payload is a part of a message queued in an epoch. */
  ghost predicate FragmentOf(sent: seq<Message>, epoch: nat, payload: seq<byte>) {
    exists n: nat, off: nat, len: nat :: IsFragment(sent, n, off, len, payload) && sent[n].epoch == epoch
  }

  /** A record's plaintext is the ChangeCipherSpec or one fragment of a message queued in its epoch. */
  ghost predicate PlainOk(sent: seq<Message>, epoch: nat, typ: byte, payload: seq<byte>) {
    || (typ == S.RT_CHANGE_CIPHER_SPEC && payload == [S.MT_CCS])
    || (typ == S.RT_HANDSHAKE && FragmentOf(sent, epoch, payload))
  }

  datatype Rec = Rec(typ: byte, version: nat, wireSeq: seq<byte>, ct: seq<byte>)

  predicate Shaped(r: Rec) {
    |r.wireSeq| == 8 && r.version < 0x1_0000 && |r.ct| < 0x1_0000
  }

  /** Under the key of the epoch in its header, a record opens to something the sender meant to send. */
  ghost predicate RecOk(keys: Keys, sent: seq<Message>, r: Rec)
    requires KeysOk(keys)
  {
    && Shaped(r)
    && var epoch := FromBe(r.wireSeq[..2]);
       var plain := keys(epoch).Open(r.typ, r.version, r.wireSeq, r.ct);
       plain.Some? && PlainOk(sent, epoch, r.typ, plain.value)
  }

  function Flatten(recs: seq<Rec>): seq<byte>
    requires forall i | 0 <= i < |recs| :: Shaped(recs[i])
  {
    if recs == [] then []
    else
      assert Shaped(recs[0]);
      RecordBytes(recs[0].typ, recs[0].version, recs[0].wireSeq, recs[0].ct) + Flatten(recs[1..])
  }

  ghost predicate RecsOk(keys: Keys, sent: seq<Message>, recs: seq<Rec>)
    requires KeysOk(keys)
  {
    forall i | 0 <= i < |recs| :: RecOk(keys, sent, recs[i])
  }

  ghost predicate DatagramOk(keys: Keys, sent: seq<Message>, d: seq<byte>)
    requires KeysOk(keys)
  {
    exists recs :: RecsOk(keys, sent, recs) && d == Flatten(recs)
  }

  // ---- The invariant --------------------------------------------------------------------------

  ghost predicate MsgOk(sent: seq<Message>, m: S.OutMsg) {
    !m.isCcs ==> exists n: nat :: n < |sent| && m.data == RawOf(sent, n) && m.epoch == sent[n].epoch
  }

  /** The writer's keys are the agreed ones for its epochs. */
  ghost predicate KeysAgree(keys: Keys, ws: WriteState) {
    && ws.current.aead == keys(ws.epoch)
    && (ws.epoch >= 1 ==> ws.previous.Some? && ws.previous.value.aead == keys(ws.epoch - 1))
  }

  ghost predicate SendOk(keys: Keys, sent: seq<Message>, snd: S.SendState) {
    && WriteInv(snd.ws) && S.CursorOk(snd.msgs, snd.cur) && KeysAgree(keys, snd.ws)
    && (forall i | 0 <= i < |snd.msgs| :: MsgOk(sent, snd.msgs[i]))
    && snd.writeSeq == |sent|
  }

  /** What has been received of a message is what was sent of it. */
  ghost predicate PartialOk(sent: seq<Message>, p: Partial) {
    && p.seqNum < |sent| && p.typ == sent[p.seqNum].typ && p.msgLen == |sent[p.seqNum].body|
    && forall k: nat | k in p.bytes :: k < p.msgLen && p.bytes[k] == sent[p.seqNum].body[k]
  }

  ghost predicate RingOk(sent: seq<Message>, rcv: V.RecvState) {
    && V.RingInv(rcv)
    && forall i | 0 <= i < V.MAX_FLIGHT && rcv.ring[i].Some? :: PartialOk(sent, rcv.ring[i].value)
  }

  ghost predicate SentOk(sent: seq<Message>) {
    |sent| < U16 && forall n | 0 <= n < |sent| :: |sent[n].body| < U24
  }

  /** Message k handed up is message k queued, header and body. */
  ghost predicate DeliveredOk(sent: seq<Message>, delivered: seq<seq<byte>>) {
    |delivered| <= |sent| && forall k: nat | k < |delivered| :: delivered[k] == RawOf(sent, k)
  }

  ghost predicate Inv(keys: Keys, w: World) {
    && KeysOk(keys) && SentOk(w.sent)
    && SendOk(keys, w.sent, w.snd)
    && (forall d | d in w.net :: DatagramOk(keys, w.sent, d))
    && DatagramOk(keys, w.sent, w.buf)
    && ReadInv(w.rs) && w.rs.aead == keys(w.rs.epoch)
    && RingOk(w.sent, w.rcv) && w.rcv.readSeq == |w.delivered|
    && DeliveredOk(w.sent, w.delivered)
  }

  // ---- Queueing more messages keeps everything said about the earlier ones ------------------------

  lemma DatagramGrows(keys: Keys, sent: seq<Message>, sent': seq<Message>, d: seq<byte>)
    requires KeysOk(keys) && sent <= sent' && DatagramOk(keys, sent, d)
    ensures DatagramOk(keys, sent', d)
  {
    hide Flatten;
    hide KeysOk;
    var recs :| RecsOk(keys, sent, recs) && d == Flatten(recs);
    forall i | 0 <= i < |recs| ensures RecOk(keys, sent', recs[i]) {
      RecGrows(keys, sent, sent', recs[i]);
    }
  }

  lemma RecGrows(keys: Keys, sent: seq<Message>, sent': seq<Message>, r: Rec)
    requires KeysOk(keys) && sent <= sent' && RecOk(keys, sent, r)
    ensures RecOk(keys, sent', r)
  {
    var payload := keys(FromBe(r.wireSeq[..2])).Open(r.typ, r.version, r.wireSeq, r.ct).value;
    if r.typ != S.RT_CHANGE_CIPHER_SPEC {
      var n: nat, off: nat, len: nat :| IsFragment(sent, n, off, len, payload)
                                        && sent[n].epoch == FromBe(r.wireSeq[..2]);
      assert IsFragment(sent', n, off, len, payload);
    }
  }

  lemma MsgGrows(sent: seq<Message>, sent': seq<Message>, m: S.OutMsg)
    requires sent <= sent' && MsgOk(sent, m)
    ensures MsgOk(sent', m)
  {
    if !m.isCcs {
      var n: nat :| n < |sent| && m.data == RawOf(sent, n) && m.epoch == sent[n].epoch;
      assert m.data == RawOf(sent', n);
    }
  }

  lemma QueueKeepsInv(keys: Keys, w: World, typ: byte, body: seq<byte>)
    requires Inv(keys, w) && |w.sent| + 1 < U16 && |body| < U24
    ensures Inv(keys, AddMessage(w, typ, body))
  {
    hide WriteInv;
    hide DatagramOk;
    hide KeysOk;
    hide RawOf;
    hide S.Raw;
    hide V.RingInv;
    var w' := AddMessage(w, typ, body);
    assert w.sent <= w'.sent;
    forall d | d in w.net ensures DatagramOk(keys, w'.sent, d) {
      DatagramGrows(keys, w.sent, w'.sent, d);
    }
    DatagramGrows(keys, w.sent, w'.sent, w.buf);
    QueuedOk(w, typ, body);
    forall k: nat | k < |w.delivered| ensures w.delivered[k] == RawOf(w'.sent, k) {
      RawStable(w.sent, w'.sent, k);
    }
  }

  lemma RawStable(sent: seq<Message>, sent': seq<Message>, n: nat)
    requires sent <= sent' && n < |sent|
    ensures RawOf(sent', n) == RawOf(sent, n)
  {
  }

  lemma QueuedOk(w: World, typ: byte, body: seq<byte>)
    requires w.snd.writeSeq == |w.sent| && |w.sent| + 1 < U16
    requires forall i | 0 <= i < |w.snd.msgs| :: MsgOk(w.sent, w.snd.msgs[i])
    ensures var w' := AddMessage(w, typ, body);
            && (forall i | 0 <= i < |w'.snd.msgs| :: MsgOk(w'.sent, w'.snd.msgs[i]))
            && w'.snd.writeSeq == |w'.sent|
  {
    var w' := AddMessage(w, typ, body);
    forall i | 0 <= i < |w'.snd.msgs| ensures MsgOk(w'.sent, w'.snd.msgs[i]) {
      var m := w'.snd.msgs[i];
      if m in w.snd.msgs {
        MsgGrows(w.sent, w'.sent, m);
      } else {
        assert m.data == RawOf(w'.sent, |w.sent|);
      }
    }
  }

  // ---- Sending ----------------------------------------------------------------------------------

  lemma QueuedParses(sent: seq<Message>, m: S.OutMsg) returns (n: nat)
    requires SentOk(sent) && MsgOk(sent, m) && !m.isCcs
    ensures n < |sent| && m.data == RawOf(sent, n) && m.epoch == sent[n].epoch
    ensures S.ParseQueued(m.data) ==
              Some((Header(sent[n].typ, |sent[n].body|, n, 0, |sent[n].body|), sent[n].body))
  {
    n :| n < |sent| && m.data == RawOf(sent, n) && m.epoch == sent[n].epoch;
    var hdr := Header(sent[n].typ, |sent[n].body|, n, 0, |sent[n].body|);
    ParseOfWrite(hdr, sent[n].body, []);
    assert hdr.Write() + sent[n].body + [] == m.data;
  }

  /** What seal_next_message plans to seal is a fragment of a queued message, or the ChangeCipherSpec. */
  lemma PlannedOk(keys: Keys, sent: seq<Message>, st: S.SendState, maxOut: nat)
    requires SentOk(sent) && SendOk(keys, sent, st) && st.cur.written < |st.msgs|
    ensures var plan := S.PlanMessage(st, maxOut);
            plan.PlanSeal? ==>
              PlainOk(sent, if plan.usePrevious then st.ws.epoch - 1 else st.ws.epoch, plan.typ, plan.payload)
  {
    hide WriteInv;
    hide KeysAgree;
    var plan := S.PlanMessage(st, maxOut);
    var m := st.msgs[st.cur.written];
    if plan.PlanSeal? && !m.isCcs {
      var n := QueuedParses(sent, m);
      hide S.ParseQueued;
      var len := |plan.payload| - HM_HEADER_LENGTH;
      assert IsFragment(sent, n, st.cur.offset, len, plan.payload);
    }
  }

  /** A record as it is to be for a planned one: its type and epoch, and what it opens to under that epoch's key. */
  ghost predicate RecFor(keys: Keys, r: Rec, p: S.Plain)
    requires KeysOk(keys)
  {
    && Shaped(r) && r.typ == p.typ && FromBe(r.wireSeq[..2]) == p.epoch
    && keys(p.epoch).Open(r.typ, r.version, r.wireSeq, r.ct) == Some(p.payload)
  }

  /** A sealed record is what it was planned to be, under the agreed key of its epoch. */
  lemma SealedRecFor(keys: Keys, ws: WriteState, usePrevious: bool, typ: byte, payload: seq<byte>, maxOut: nat)
      returns (r: Rec)
    requires KeysOk(keys) && WriteInv(ws) && KeysAgree(keys, ws) && Usable(ws, usePrevious)
    requires SealRecord(ws, usePrevious, typ, payload, maxOut).1.Sealed?
    ensures RecFor(keys, r, S.Plain(if usePrevious then ws.epoch - 1 else ws.epoch, typ, payload))
    ensures SealRecord(ws, usePrevious, typ, payload, maxOut).1.record == RecordBytes(r.typ, r.version, r.wireSeq, r.ct)
  {
    hide SealRecord;
    var epoch := if usePrevious then ws.epoch - 1 else ws.epoch;
    assert Key(ws, usePrevious).aead == keys(epoch);
    assert keys(epoch).isNull || keys(epoch).Ideal();
    var ct := SealedOpens(ws, usePrevious, typ, payload, maxOut);
    r := Rec(typ, ws.current.aead.recordVersion, WireSeq(ws, usePrevious), ct);
    assert r.wireSeq[..2] == Be(epoch, 2);
    assert Pow256(2) == EPOCH_LIMIT;
    FromBeOfBe(epoch, 2);
  }

  /** A sealed record opens under the agreed key of the epoch it names. */
  lemma SealedRecOk(keys: Keys, sent: seq<Message>, ws: WriteState, usePrevious: bool, typ: byte,
                    payload: seq<byte>, maxOut: nat) returns (r: Rec)
    requires KeysOk(keys) && WriteInv(ws) && KeysAgree(keys, ws) && Usable(ws, usePrevious)
    requires PlainOk(sent, if usePrevious then ws.epoch - 1 else ws.epoch, typ, payload)
    requires SealRecord(ws, usePrevious, typ, payload, maxOut).1.Sealed?
    ensures RecOk(keys, sent, r)
    ensures SealRecord(ws, usePrevious, typ, payload, maxOut).1.record == RecordBytes(r.typ, r.version, r.wireSeq, r.ct)
  {
    hide PlainOk;
    hide SealRecord;
    r := SealedRecFor(keys, ws, usePrevious, typ, payload, maxOut);
  }

  lemma {:induction false} FlattenAppend(recs: seq<Rec>, r: Rec)
    requires Shaped(r) && forall i | 0 <= i < |recs| :: Shaped(recs[i])
    ensures Flatten(recs + [r]) == Flatten(recs) + RecordBytes(r.typ, r.version, r.wireSeq, r.ct)
  {
    if recs == [] {
      assert recs + [r] == [r] && [r][1..] == [];
      assert Flatten([]) == [];
    } else {
      hide RecordBytes;
      assert (recs + [r])[0] == recs[0] && (recs + [r])[1..] == recs[1..] + [r];
      FlattenAppend(recs[1..], r);
    }
  }

  lemma AppendOk(keys: Keys, sent: seq<Message>, d: seq<byte>, r: Rec)
    requires KeysOk(keys) && DatagramOk(keys, sent, d) && RecOk(keys, sent, r)
    ensures DatagramOk(keys, sent, d + RecordBytes(r.typ, r.version, r.wireSeq, r.ct))
  {
    hide RecordBytes;
    hide KeysOk;
    var recs :| RecsOk(keys, sent, recs) && d == Flatten(recs);
    FlattenAppend(recs, r);
    assert RecsOk(keys, sent, recs + [r]);
  }

  lemma NothingOk(keys: Keys, sent: seq<Message>)
    requires KeysOk(keys)
    ensures DatagramOk(keys, sent, [])
  {
    assert RecsOk(keys, sent, []) && Flatten([]) == [];
  }

  lemma SealMessageOk(keys: Keys, sent: seq<Message>, st: S.SendState, maxOut: nat, d: seq<byte>)
    requires KeysOk(keys) && SentOk(sent) && SendOk(keys, sent, st) && st.cur.written < |st.msgs|
    requires DatagramOk(keys, sent, d)
    ensures var result := S.SealMessage(st, maxOut).1;
            result.Progress? ==> DatagramOk(keys, sent, d + result.bytes)
  {
    hide SealRecord;
    hide DatagramOk;
    hide PlainOk;
    hide S.PlanMessage;
    PlannedOk(keys, sent, st, maxOut);
    S.PlanUsable(st, maxOut);
    var plan := S.PlanMessage(st, maxOut);
    if plan.PlanSeal? && SealRecord(st.ws, plan.usePrevious, plan.typ, plan.payload, maxOut).1.Sealed? {
      var r := SealedRecOk(keys, sent, st.ws, plan.usePrevious, plan.typ, plan.payload, maxOut);
      AppendOk(keys, sent, d, r);
    }
  }

  lemma {:induction false} PacketOk(keys: Keys, sent: seq<Message>, st: S.SendState, maxOut: nat,
                                    bytes: seq<byte>, plains: seq<S.Plain>)
    requires KeysOk(keys) && SentOk(sent) && SendOk(keys, sent, st) && DatagramOk(keys, sent, bytes)
    ensures var (st', result) := S.SealPacket(st, maxOut, bytes, plains);
            && SendOk(keys, sent, st')
            && (result.Packet? ==> DatagramOk(keys, sent, result.bytes))
    decreases |st.msgs| - st.cur.written
  {
    hide S.SealMessage;
    hide S.StepCursor;
    hide DatagramOk;
    hide KeysOk;
    hide MsgOk;
    S.PacketWalks(st, maxOut, bytes, plains);
    if st.cur.written < |st.msgs| {
      S.SealMessageFrame(st, maxOut);
      S.SealMessageSteps(st, maxOut);
      SealMessageOk(keys, sent, st, maxOut, bytes);
      var (st', result) := S.SealMessage(st, maxOut);
      if result.Progress? && !result.partial {
        PacketOk(keys, sent, st'.(cur := S.Cursor(st.cur.written + 1, st'.cur.offset)),
                 if |result.bytes| <= maxOut then maxOut - |result.bytes| else 0,
                 bytes + result.bytes, plains + [result.plain]);
      }
    }
  }

  /** Everything one call of send_flight hands to the transport may travel. */
  lemma {:induction false} FlightOk(keys: Keys, sent: seq<Message>, st: S.SendState, mtu: nat, bio: nat -> bool,
                                    k: nat, flushOk: bool)
    requires KeysOk(keys) && SentOk(sent) && SendOk(keys, sent, st)
    ensures var (st', packets, _) := S.SendFlight(st, mtu, bio, k, flushOk);
            && SendOk(keys, sent, st')
            && forall i | 0 <= i < |packets| :: DatagramOk(keys, sent, packets[i].bytes)
    decreases |st.msgs| - st.cur.written, S.BodyLeft(st)
  {
    hide S.SealPacket, S.Walk, S.SameKeys, S.CursorOk;
    hide DatagramOk, KeysOk, MsgOk, KeysAgree;
    if st.cur.written < |st.msgs| {
      NothingOk(keys, sent);
      PacketOk(keys, sent, st, mtu, [], []);
      S.PacketWalks(st, mtu, [], []);
      S.PacketAdvances(st, mtu);
      var (st', result) := S.SealPacket(st, mtu, [], []);
      if result.Packet? && bio(k) {
        FlightOk(keys, sent, st', mtu, bio, k + 1, flushOk);
      }
    }
  }

  lemma SendKeepsInv(keys: Keys, w: World, snd: S.SendState, mtu: nat, bio: nat -> bool, flushOk: bool)
    requires Inv(keys, w) && SendOk(keys, w.sent, snd)
    ensures Inv(keys, Send(w, snd, mtu, bio, flushOk))
  {
    hide S.SendFlight;
    hide DatagramOk;
    hide KeysOk;
    hide MsgOk;
    FlightOk(keys, w.sent, snd, mtu, bio, 0, flushOk);
    var w' := Send(w, snd, mtu, bio, flushOk);
    var packets := S.SendFlight(snd, mtu, bio, 0, flushOk).1;
    forall d | d in w'.net ensures DatagramOk(keys, w'.sent, d) {
      if d !in w.net {
        var s :| s in packets && d == s.bytes;
      }
    }
  }

  // ---- Receiving --------------------------------------------------------------------------------

  /** Opening the front of a datagram leaves a datagram, and yields only what the sender meant to send. */
  lemma OpenOk(keys: Keys, sent: seq<Message>, rs: ReadState, buf: seq<byte>)
    requires KeysOk(keys) && DatagramOk(keys, sent, buf) && ReadInv(rs) && rs.aead == keys(rs.epoch)
    ensures var (rs', result) := OpenRecord(rs, buf);
            && ReadInv(rs') && rs'.aead == rs.aead && rs'.epoch == rs.epoch
            && match result
               case Opened(typ, plaintext, consumed) =>
                 PlainOk(sent, rs.epoch, typ, plaintext) && DatagramOk(keys, sent, Rest(buf, consumed))
               case AlertRecord(_, consumed) => DatagramOk(keys, sent, Rest(buf, consumed))
               case RecordOverflow(consumed) => DatagramOk(keys, sent, Rest(buf, consumed))
               case Dropped(consumed) => DatagramOk(keys, sent, Rest(buf, consumed))
               case NeedMore => true
               case CloseNotify => true
  {
    hide PlainOk;
    hide KeysOk;
    hide DtlsReplay.ShouldDiscard;
    hide DtlsReplay.Record;
    hide ParseRecord, Aead.Open;
    NothingOk(keys, sent);
    var recs :| RecsOk(keys, sent, recs) && buf == Flatten(recs);
    if recs != [] {
      var r := recs[0];
      assert RecOk(keys, sent, r);
      assert RecsOk(keys, sent, recs[1..]);
      FrontRecord(recs, r);
    }
  }

  /** The first record of a datagram parses, or is too long and the whole datagram is dropped. */
  lemma FrontRecord(recs: seq<Rec>, r: Rec)
    requires recs != [] && r == recs[0] && forall i | 0 <= i < |recs| :: Shaped(recs[i])
    ensures Flatten(recs) != []
    ensures var front := ParseRecord(Flatten(recs));
            if |r.ct| > MAX_ENCRYPTED_LENGTH then front.None?
            else front == Some(RawRecord(r.typ, r.version, r.wireSeq, r.ct))
    ensures RT_HEADER_LENGTH + |r.ct| <= |Flatten(recs)|
    ensures Flatten(recs)[RT_HEADER_LENGTH + |r.ct|..] == Flatten(recs[1..])
  {
    assert Shaped(r);
    var bytes, rest := RecordBytes(r.typ, r.version, r.wireSeq, r.ct), Flatten(recs[1..]);
    assert Flatten(recs) == bytes + rest;
    if |r.ct| <= MAX_ENCRYPTED_LENGTH {
      ParseOfRecordBytes(r.typ, r.version, r.wireSeq, r.ct, rest);
    } else {
      assert Pow256(2) == 0x1_0000;
      FromBeOfBe(|r.ct|, 2);
      assert (bytes + rest)[11..13] == Be(|r.ct|, 2);
    }
  }

  /** A fragment of a queued message only adds to a slot bytes of that message. */
  lemma FragmentKeepsRing(sent: seq<Message>, rcv: V.RecvState, n: nat, off: nat, len: nat)
    requires SentOk(sent) && RingOk(sent, rcv) && n < |sent| && off + len <= |sent[n].body|
    ensures var hdr := Header(sent[n].typ, |sent[n].body|, n, off, len);
            && RingOk(sent, V.ReceiveFragment(rcv, hdr, sent[n].body[off..off + len]).0)
            && V.ReceiveFragment(rcv, hdr, sent[n].body[off..off + len]).0.readSeq == rcv.readSeq
  {
    var hdr, part := Header(sent[n].typ, |sent[n].body|, n, off, len), sent[n].body[off..off + len];
    V.ReceiveFragmentKeepsRing(rcv, hdr, part);
    var (rcv', err) := V.ReceiveFragment(rcv, hdr, part);
    if err.None? && rcv' != rcv {
      var i := n % V.MAX_FLIGHT;
      var p := V.Slot(rcv, hdr);
      SlotOk(sent, rcv, hdr);
      assert PartialOk(sent, p.(bytes := p.bytes + Placed(off, part)));
      forall j | 0 <= j < V.MAX_FLIGHT && rcv'.ring[j].Some? ensures PartialOk(sent, rcv'.ring[j].value) {
        if j != i { assert rcv'.ring[j] == rcv.ring[j]; }
      }
    }
  }

  lemma SlotOk(sent: seq<Message>, rcv: V.RecvState, hdr: Header)
    requires RingOk(sent, rcv) && hdr.seqNum < |sent| && hdr.typ == sent[hdr.seqNum].typ
    requires hdr.msgLen == |sent[hdr.seqNum].body| && rcv.readSeq <= hdr.seqNum < rcv.readSeq + V.MAX_FLIGHT
    ensures PartialOk(sent, V.Slot(rcv, hdr)) && V.Slot(rcv, hdr).seqNum == hdr.seqNum
  {
    var slot := rcv.ring[hdr.seqNum % V.MAX_FLIGHT];
    if slot.Some? {
      assert V.SlotInv(rcv.readSeq, hdr.seqNum % V.MAX_FLIGHT, slot.value);
    }
  }

  lemma HandshakeKeepsRing(sent: seq<Message>, rcv: V.RecvState, epoch: nat, typ: byte, payload: seq<byte>)
    requires SentOk(sent) && RingOk(sent, rcv) && PlainOk(sent, epoch, typ, payload)
    ensures RingOk(sent, V.OpenHandshake(rcv, typ, payload).0)
    ensures V.OpenHandshake(rcv, typ, payload).0.readSeq == rcv.readSeq
  {
    if typ == S.RT_HANDSHAKE {
      var n: nat, off: nat, len: nat :| IsFragment(sent, n, off, len, payload);
      var hdr, part := Header(sent[n].typ, |sent[n].body|, n, off, len), sent[n].body[off..off + len];
      ParseOfWrite(hdr, part, []);
      assert hdr.Write() + part + [] == payload;
      FragmentKeepsRing(sent, rcv, n, off, len);
      hide V.ReceiveFragment;
      hide RingOk;
      hide SentOk;
      V.ReceiveFragmentKeepsRing(rcv, hdr, part);
      var rcv' := V.ReceiveFragment(rcv, hdr, part).0;
      assert V.ReceiveFragments(rcv', []) == (rcv', V.Success);
    }
  }

  /** The message handed up is the queued message whose turn it is. */
  lemma CurrentIsNextSent(sent: seq<Message>, rcv: V.RecvState)
    requires SentOk(sent) && RingOk(sent, rcv) && V.CurrentComplete(rcv)
    ensures rcv.readSeq < |sent| && V.CurrentMessage(rcv) == RawOf(sent, rcv.readSeq)
  {
    var i := rcv.readSeq % V.MAX_FLIGHT;
    var p := rcv.ring[i].value;
    assert V.SlotInv(rcv.readSeq, i, p);
    assert p.seqNum == rcv.readSeq;
    assert PartialOk(sent, p);
    forall k: nat | k < p.msgLen ensures p.Body()[k] == sent[p.seqNum].body[k] {
      assert k in p.bytes;
    }
    assert p.Body() == sent[p.seqNum].body;
  }

  // ---- Every run --------------------------------------------------------------------------------

  lemma ProcessKeepsInv(keys: Keys, w: World)
    requires Inv(keys, w)
    ensures Inv(keys, Process(w))
  {
    hide OpenRecord;
    hide DatagramOk;
    hide KeysOk;
    hide SendOk;
    hide V.OpenHandshake;
    hide PartialOk;
    OpenOk(keys, w.sent, w.rs, w.buf);
    NothingOk(keys, w.sent);
    var result := OpenRecord(w.rs, w.buf).1;
    if result.Opened? {
      HandshakeKeepsRing(w.sent, w.rcv, w.rs.epoch, result.typ, result.plaintext);
    }
  }

  lemma NextMessageKeepsInv(keys: Keys, w: World)
    requires Inv(keys, w) && w.rcv.hasMessage && V.CurrentComplete(w.rcv)
    ensures Inv(keys, Next(keys, w, NextMessage))
  {
    hide KeysOk;
    hide SendOk;
    hide DatagramOk;
    CurrentIsNextSent(w.sent, w.rcv);
    V.NextMessageKeepsRing(w.rcv);
    var rcv' := V.NextMessage(w.rcv);
    forall i | 0 <= i < V.MAX_FLIGHT && rcv'.ring[i].Some? ensures PartialOk(w.sent, rcv'.ring[i].value) {
      assert rcv'.ring[i] == w.rcv.ring[i];
    }
  }

  lemma ChangeKeysKeepInv(keys: Keys, w: World)
    requires Inv(keys, w)
    ensures Enabled(w, ChangeWriteKey) ==> Inv(keys, Next(keys, w, ChangeWriteKey))
    ensures Enabled(w, Step.ChangeReadKey) ==> Inv(keys, Next(keys, w, Step.ChangeReadKey))
  {
    hide DatagramOk;
    hide MsgOk;
    hide PartialOk;
    hide S.CursorOk;
  }

  lemma FlightStepsKeepInv(keys: Keys, w: World, step: Step)
    requires Inv(keys, w)
    requires step.Flush? || step.Retransmit? || step.QueueChangeCipherSpec? || step.FlightAnswered? || step.HandshakeDone?
    ensures Inv(keys, Next(keys, w, step))
  {
    hide DatagramOk;
    hide KeysOk;
    hide WriteInv;
    hide S.SendFlight;
    hide V.RingInv;
    if step.Flush? {
      SendKeepsInv(keys, w, w.snd.(complete := true), step.mtu, step.bio, step.flushOk);
    } else if step.Retransmit? {
      SendKeepsInv(keys, w, S.Rewind(w.snd), step.mtu, step.bio, step.flushOk);
    }
  }

  lemma StepKeepsInv(keys: Keys, w: World, step: Step)
    requires Inv(keys, w) && Enabled(w, step)
    ensures Inv(keys, Next(keys, w, step))
  {
    match step
    case Queue(typ, body) => QueueKeepsInv(keys, w, typ, body);
    case ProcessRecord => ProcessKeepsInv(keys, w);
    case NextMessage => NextMessageKeepsInv(keys, w);
    case ChangeWriteKey => ChangeKeysKeepInv(keys, w);
    case ChangeReadKey => ChangeKeysKeepInv(keys, w);
    case Arrive(_) => hide DatagramOk; hide SendOk;
    case GetMessage => hide DatagramOk; hide SendOk;
    case TakeChangeCipherSpec => hide DatagramOk; hide SendOk;
    case _ => FlightStepsKeepInv(keys, w, step);
  }

  lemma FreshInv(keys: Keys, w: World)
    requires Fresh(keys, w)
    ensures Inv(keys, w)
  {
    NothingOk(keys, []);
  }

  lemma {:induction false} RunKeepsInv(keys: Keys, run: seq<World>, steps: seq<Step>, n: nat)
    requires IsRun(keys, run, steps) && n <= |steps|
    ensures Inv(keys, run[n])
  {
    hide Inv;
    hide Next;
    hide Enabled;
    hide Sane;
    hide Fresh;
    if n == 0 {
      FreshInv(keys, run[0]);
    } else {
      RunKeepsInv(keys, run, steps, n - 1);
      StepKeepsInv(keys, run[n - 1], steps[n - 1]);
    }
  }

  function Concat(parts: seq<seq<byte>>): seq<byte> {
    if parts == [] then [] else Concat(parts[..|parts| - 1]) + parts[|parts| - 1]
  }

  /** What the sender's transcript hashed: every queued message as it was built. */
  function SenderTranscript(sent: seq<Message>): seq<byte> {
    if sent == [] then [] else SenderTranscript(sent[..|sent| - 1]) + RawOf(sent, |sent| - 1)
  }

  /**
   Over every flight, every sequence of MTUs, transport failures, retransmissions and key changes,
   and every dropping, duplicating and reordering network: message k handed up by the receiver is
   byte for byte the array the sender queued as number k, in order and each once.
   */
  lemma DeliveredAreSent(keys: Keys, run: seq<World>, steps: seq<Step>, n: nat, k: nat)
    requires IsRun(keys, run, steps) && n <= |steps| && k < |run[n].delivered|
    ensures k < |run[n].sent|
    ensures run[n].delivered[k] ==
              Header(run[n].sent[k].typ, |run[n].sent[k].body|, k, 0, |run[n].sent[k].body|).Write() + run[n].sent[k].body
  {
    RunKeepsInv(keys, run, steps, n);
  }

  /**
   And what is opened under the key of an epoch is part of a message queued in that epoch: nothing queued
   after a key change travels, in any run, under an earlier key or none.
   */
  lemma OpenedInItsEpoch(keys: Keys, run: seq<World>, steps: seq<Step>, n: nat)
    requires IsRun(keys, run, steps) && n <= |steps|
    ensures ReadInv(run[n].rs) && InItsEpoch(run[n])
  {
    hide OpenRecord, KeysOk, DatagramOk, SendOk, RingOk, DeliveredOk, Next, Fresh, Sane, Enabled, FragmentOf;
    RunKeepsInv(keys, run, steps, n);
    OpenOk(keys, run[n].sent, run[n].rs, run[n].buf);
  }

  ghost predicate InItsEpoch(w: World)
    requires ReadInv(w.rs)
  {
    var result := OpenRecord(w.rs, w.buf).1;
    result.Opened? && result.typ == S.RT_HANDSHAKE ==> FragmentOf(w.sent, w.rs.epoch, result.plaintext)
  }

  /** So what the receiver's transcript hashed is a prefix of what the sender's did. */
  lemma TranscriptsAgree(keys: Keys, run: seq<World>, steps: seq<Step>, n: nat)
    requires IsRun(keys, run, steps) && n <= |steps|
    ensures |run[n].delivered| <= |run[n].sent|
    ensures Concat(run[n].delivered) == SenderTranscript(run[n].sent[..|run[n].delivered|])
  {
    RunKeepsInv(keys, run, steps, n);
    PrefixTranscript(run[n].sent, run[n].delivered);
  }

  lemma {:induction false} PrefixTranscript(sent: seq<Message>, delivered: seq<seq<byte>>)
    requires DeliveredOk(sent, delivered)
    ensures Concat(delivered) == SenderTranscript(sent[..|delivered|])
    decreases |delivered|
  {
    hide RawOf;
    if delivered != [] {
      var m := |delivered| - 1;
      PrefixTranscript(sent, delivered[..m]);
      assert sent[..|delivered|][..m] == sent[..m];
      RawStable(sent[..|delivered|], sent, m);
    }
  }

  // ---- Nothing is lost for good -------------------------------------------------------------------

  /** A part [off, off + len) of a message. */
  datatype Cut = Cut(off: nat, len: nat)

  predicate CutsFit(cuts: seq<Cut>, bodyLen: nat) {
    forall i | 0 <= i < |cuts| :: cuts[i].off + cuts[i].len <= bodyLen
  }

  function Covered(cuts: seq<Cut>): set<nat> {
    if cuts == [] then {} else Range(cuts[0].off, cuts[0].off + cuts[0].len) + Covered(cuts[1..])
  }

  ghost function ReceiveCut(sent: seq<Message>, rcv: V.RecvState, n: nat, c: Cut): V.RecvState
    requires SentOk(sent) && V.RingInv(rcv) && n < |sent| && c.off + c.len <= |sent[n].body|
  {
    V.ReceiveFragment(rcv, Header(sent[n].typ, |sent[n].body|, n, c.off, c.len), sent[n].body[c.off..c.off + c.len]).0
  }

  ghost function ReceiveCuts(sent: seq<Message>, rcv: V.RecvState, n: nat, cuts: seq<Cut>): V.RecvState
    requires SentOk(sent) && RingOk(sent, rcv) && n < |sent| && CutsFit(cuts, |sent[n].body|)
    decreases |cuts|
  {
    if cuts == [] then rcv
    else
      FragmentKeepsRing(sent, rcv, n, cuts[0].off, cuts[0].len);
      ReceiveCuts(sent, ReceiveCut(sent, rcv, n, cuts[0]), n, cuts[1..])
  }

  /** The offsets received of the message under the receiver's counter. */
  ghost function Got(rcv: V.RecvState): set<nat>
    requires V.RingInv(rcv)
  {
    var slot := rcv.ring[rcv.readSeq % V.MAX_FLIGHT];
    if slot.None? then {} else slot.value.bytes.Keys
  }

  lemma CutGrows(sent: seq<Message>, rcv: V.RecvState, c: Cut)
    requires SentOk(sent) && RingOk(sent, rcv) && rcv.readSeq < |sent|
    requires c.off + c.len <= |sent[rcv.readSeq].body| <= rcv.maxLen
    ensures var rcv' := ReceiveCut(sent, rcv, rcv.readSeq, c);
            && RingOk(sent, rcv') && rcv'.readSeq == rcv.readSeq && rcv'.maxLen == rcv.maxLen
            && Got(rcv) + Range(c.off, c.off + c.len) <= Got(rcv')
            && rcv'.ring[rcv.readSeq % V.MAX_FLIGHT].Some?
  {
    var n := rcv.readSeq;
    var hdr := Header(sent[n].typ, |sent[n].body|, n, c.off, c.len);
    FragmentKeepsRing(sent, rcv, n, c.off, c.len);
    SlotOk(sent, rcv, hdr);
  }

  lemma {:induction false} CutsGrow(sent: seq<Message>, rcv: V.RecvState, cuts: seq<Cut>)
    requires SentOk(sent) && RingOk(sent, rcv) && rcv.readSeq < |sent|
    requires CutsFit(cuts, |sent[rcv.readSeq].body|) && |sent[rcv.readSeq].body| <= rcv.maxLen
    ensures var rcv' := ReceiveCuts(sent, rcv, rcv.readSeq, cuts);
            && RingOk(sent, rcv') && rcv'.readSeq == rcv.readSeq
            && Got(rcv) + Covered(cuts) <= Got(rcv')
            && (cuts != [] || rcv.ring[rcv.readSeq % V.MAX_FLIGHT].Some? ==>
                  rcv'.ring[rcv.readSeq % V.MAX_FLIGHT].Some?)
    decreases |cuts|
  {
    if cuts != [] {
      CutGrows(sent, rcv, cuts[0]);
      hide ReceiveCut;
      hide RingOk;
      CutsGrow(sent, ReceiveCut(sent, rcv, rcv.readSeq, cuts[0]), cuts[1..]);
    }
  }

  /**
   Once parts that together cover the message under the counter have arrived, in any order, with any
   overlaps and repetitions and whatever was there before, the message is complete and is handed up
   as the sender queued it.
   */
  lemma CoveringPartsComplete(sent: seq<Message>, rcv: V.RecvState, cuts: seq<Cut>)
    requires SentOk(sent) && RingOk(sent, rcv) && rcv.readSeq < |sent| && cuts != []
    requires CutsFit(cuts, |sent[rcv.readSeq].body|) && |sent[rcv.readSeq].body| <= rcv.maxLen
    requires Range(0, |sent[rcv.readSeq].body|) <= Covered(cuts)
    ensures var rcv' := ReceiveCuts(sent, rcv, rcv.readSeq, cuts);
            && RingOk(sent, rcv') && V.CurrentComplete(rcv')
            && V.CurrentMessage(rcv') == RawOf(sent, rcv.readSeq)
  {
    CutsGrow(sent, rcv, cuts);
    hide ReceiveCuts;
    hide Covered;
    var rcv' := ReceiveCuts(sent, rcv, rcv.readSeq, cuts);
    CoveredCompletes(sent, rcv');
  }

  lemma CoveredCompletes(sent: seq<Message>, rcv: V.RecvState)
    requires SentOk(sent) && RingOk(sent, rcv) && rcv.readSeq < |sent|
    requires rcv.ring[rcv.readSeq % V.MAX_FLIGHT].Some? && Range(0, |sent[rcv.readSeq].body|) <= Got(rcv)
    ensures V.CurrentComplete(rcv) && V.CurrentMessage(rcv) == RawOf(sent, rcv.readSeq)
  {
    var i := rcv.readSeq % V.MAX_FLIGHT;
    assert V.SlotInv(rcv.readSeq, i, rcv.ring[i].value);
    assert PartialOk(sent, rcv.ring[i].value);
    CurrentIsNextSent(sent, rcv);
  }
}
