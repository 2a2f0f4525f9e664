/**
 The receiving half of the DTLS handshake transport: the ring of partially reassembled messages,
 dtls1_open_handshake (after the record layer has opened the record), dtls1_get_message,
 dtls1_next_message, dtls1_open_change_cipher_spec's flag and the read half of the cipher change.

 RecvState and the functions over it are the specification; class Receiver is the code, updating
 the ring in place, and every method is proved to act on the abstract state as the specification
 says.
 */
module DtlsReceiver {
  import opened Wrappers
  import opened Bytes
  import opened DtlsFragment
  import opened DtlsReassembly

  const MAX_FLIGHT: nat := 7

  const RT_CHANGE_CIPHER_SPEC: byte := 20
  const RT_ALERT: byte := 21
  const RT_HANDSHAKE: byte := 22
  const RT_APPLICATION_DATA: byte := 23
  const MT_CCS: byte := 1

  datatype Alert = InternalError | IllegalParameter | DecodeError | UnexpectedMessage

  datatype OpenResult = Success | Discard | Error(alert: Alert)

  datatype RecvState = RecvState(
    ring: seq<Option<Partial>>,
    readSeq: nat,
    rEpoch: nat,
    nullCipher: bool,
    hasCcs: bool,
    hasMessage: bool,
    flightComplete: bool,
    flightHasReply: bool,
    maxLen: nat
  )

  /** The state a connection starts in. */
  function Initial(maxLen: nat): RecvState {
    RecvState(seq(MAX_FLIGHT, _ => None), 0, 0, true, false, false, false, false, maxLen)
  }

  /**
   In every reachable state slot i holds a message no longer than allowed whose number is congruent to i
   and among the seven that start at readSeq; in epoch 1, only the message whose turn it is.
   */
  ghost predicate RingInv(st: RecvState) {
    && |st.ring| == MAX_FLIGHT
    && st.readSeq < U16
    && forall i | 0 <= i < MAX_FLIGHT && st.ring[i].Some? ::
         SlotInv(st.readSeq, i, st.ring[i].value) && Admitted(st, st.ring[i].value)
  }

  predicate Admitted(st: RecvState, p: Partial) {
    p.msgLen <= st.maxLen && (st.rEpoch == 1 ==> p.seqNum == st.readSeq)
  }

  ghost predicate SlotInv(readSeq: nat, i: nat, p: Partial) {
    && p.seqNum % MAX_FLIGHT == i
    && readSeq <= p.seqNum < readSeq + MAX_FLIGHT
    && p.seqNum < U16 && p.msgLen < U24
    && p.bytes.Keys <= Range(0, p.msgLen)
  }

  /** The message a fragment belongs to: the one in its slot, or a new one with nothing received. */
  ghost function Slot(st: RecvState, hdr: Header): Partial
    requires RingInv(st)
  {
    match st.ring[hdr.seqNum % MAX_FLIGHT]
    case Some(p) => p
    case None => Partial(hdr.typ, hdr.seqNum, hdr.msgLen, map[])
  }

  ghost function ReceiveFragment(st: RecvState, hdr: Header, body: seq<byte>): (res: (RecvState, Option<Alert>))
    requires RingInv(st) && hdr.Fits() && |body| == hdr.fragLen
  {
    if hdr.fragOff > hdr.msgLen || hdr.fragOff + hdr.fragLen > hdr.msgLen || hdr.msgLen > st.maxLen then
      (st, Some(IllegalParameter))
    else if st.rEpoch == 1 && hdr.seqNum != st.readSeq then
      (st, Some(UnexpectedMessage))
    else if hdr.seqNum < st.readSeq || hdr.seqNum > st.readSeq + MAX_FLIGHT then
      (st, None)
    else if hdr.seqNum - st.readSeq >= MAX_FLIGHT then
      (st, Some(InternalError))
    else
      var p := Slot(st, hdr);
      if p.typ != hdr.typ || p.msgLen != hdr.msgLen then
        (st, Some(IllegalParameter))
      else
        var q := if p.Complete() then p else p.(bytes := p.bytes + Placed(hdr.fragOff, body));
        (st.(ring := st.ring[hdr.seqNum % MAX_FLIGHT := Some(q)]), None)
  }

  lemma ReceiveFragmentKeepsRing(st: RecvState, hdr: Header, body: seq<byte>)
    requires RingInv(st) && hdr.Fits() && |body| == hdr.fragLen
    ensures RingInv(ReceiveFragment(st, hdr, body).0)
  {
  }

  /** The fragments of one handshake record, in order; fragments before an error have been kept. */
  ghost function ReceiveFragments(st: RecvState, record: seq<byte>): (res: (RecvState, OpenResult))
    requires RingInv(st)
    decreases |record|
  {
    if record == [] then
      (st, Success)
    else
      match ParseFragment(record)
      case None => (st, Error(DecodeError))
      case Some(p) =>
        ReceiveFragmentKeepsRing(st, p.hdr, p.body);
        var (st', err) := ReceiveFragment(st, p.hdr, p.body);
        if err.Some? then (st', Error(err.value)) else ReceiveFragments(st', p.rest)
  }

  ghost function OpenHandshake(st: RecvState, typ: byte, record: seq<byte>): (res: (RecvState, OpenResult))
    requires RingInv(st)
  {
    if typ == RT_APPLICATION_DATA then
      (st, if st.nullCipher then Error(UnexpectedMessage) else Discard)
    else if typ == RT_CHANGE_CIPHER_SPEC then
      if !st.nullCipher then (st, Error(UnexpectedMessage))
      else if record != [MT_CCS] then (st, Error(IllegalParameter))
      else (st.(hasCcs := true), Success)
    else if typ == RT_HANDSHAKE then
      ReceiveFragments(st, record)
    else
      (st, Error(UnexpectedMessage))
  }

  /** dtls1_is_current_message_complete. */
  ghost predicate CurrentComplete(st: RecvState)
    requires RingInv(st)
  {
    var slot := st.ring[st.readSeq % MAX_FLIGHT];
    slot.Some? && slot.value.Complete()
  }

  /** The bytes dtls1_get_message hands up. */
  ghost function CurrentMessage(st: RecvState): seq<byte>
    requires RingInv(st) && CurrentComplete(st)
  {
    st.ring[st.readSeq % MAX_FLIGHT].value.Raw()
  }

  ghost function NextMessage(st: RecvState): RecvState
    requires RingInv(st)
  {
    st.(ring := st.ring[st.readSeq % MAX_FLIGHT := None],
        readSeq := (st.readSeq + 1) % U16,
        hasMessage := false,
        flightHasReply := st.flightHasReply || st.flightComplete)
  }

  /** dtls_has_unprocessed_handshake_data. */
  ghost predicate HasUnprocessed(st: RecvState)
    requires RingInv(st)
  {
    || st.hasCcs
    || exists i | 0 <= i < MAX_FLIGHT ::
         st.ring[i].Some? && !(st.hasMessage && i == st.readSeq % MAX_FLIGHT)
  }

  /** dtls1_set_read_state: refused while handshake data is left over. */
  ghost function SetReadState(st: RecvState): Option<RecvState>
    requires RingInv(st)
  {
    if HasUnprocessed(st) then None
    else Some(st.(rEpoch := (st.rEpoch + 1) % U16, nullCipher := false))
  }

  /** dtls1_open_change_cipher_spec: a record is opened only if no ChangeCipherSpec has been seen yet. */
  ghost function OpenChangeCipherSpec(st: RecvState, typ: byte, record: seq<byte>): (res: (RecvState, OpenResult))
    requires RingInv(st)
  {
    var (st', result) := if st.hasCcs then (st, Success) else OpenHandshake(st, typ, record);
    if !result.Success? then (st', result)
    else if st'.hasCcs then (st'.(hasCcs := false), Success)
    else (st', Discard)
  }

  // ---- The ring invariant, whatever the records -----------------------------------------------

  lemma {:induction false} ReceiveFragmentsKeepsRing(st: RecvState, record: seq<byte>)
    requires RingInv(st)
    ensures RingInv(ReceiveFragments(st, record).0)
    ensures ReceiveFragments(st, record).0.readSeq == st.readSeq
    decreases |record|
  {
    if record != [] && ParseFragment(record).Some? {
      var p := ParseFragment(record).value;
      ReceiveFragmentKeepsRing(st, p.hdr, p.body);
      var (st', err) := ReceiveFragment(st, p.hdr, p.body);
      if err.None? { ReceiveFragmentsKeepsRing(st', p.rest); }
    }
  }

  lemma OpenHandshakeKeepsRing(st: RecvState, typ: byte, record: seq<byte>)
    requires RingInv(st)
    ensures RingInv(OpenHandshake(st, typ, record).0)
    ensures OpenHandshake(st, typ, record).0.readSeq == st.readSeq
  {
    if typ == RT_HANDSHAKE { ReceiveFragmentsKeepsRing(st, record); }
  }

  /**
   Handing a message up keeps the ring invariant.  When the 16-bit counter wraps, the only
   message that can be in the ring is the one just handed up.
   */
  lemma NextMessageKeepsRing(st: RecvState)
    requires RingInv(st)
    ensures RingInv(NextMessage(st))
    ensures st.readSeq + 1 == U16 ==> forall i | 0 <= i < MAX_FLIGHT :: NextMessage(st).ring[i].None?
  {
    var st' := NextMessage(st);
    forall i | 0 <= i < MAX_FLIGHT && st'.ring[i].Some?
      ensures st.readSeq + 1 < U16 && SlotInv(st'.readSeq, i, st'.ring[i].value) && Admitted(st', st'.ring[i].value)
    {
      assert SlotInv(st.readSeq, i, st.ring[i].value);
      assert i != st.readSeq % MAX_FLIGHT;
      assert st.ring[i].value.seqNum != st.readSeq;
    }
  }

  /** With nothing left over but the message handed up, the keys may change: what follows is in epoch order. */
  lemma SetReadStateKeepsRing(st: RecvState)
    requires RingInv(st) && SetReadState(st).Some?
    ensures RingInv(SetReadState(st).value)
  {
    var st' := SetReadState(st).value;
    forall i | 0 <= i < MAX_FLIGHT && st'.ring[i].Some? ensures Admitted(st', st'.ring[i].value) {
      assert SlotInv(st.readSeq, i, st.ring[i].value);
    }
  }

  // ---- Every run, hostile records included -----------------------------------------------------

  datatype Step =
    | OpenRecord(typ: byte, record: seq<byte>)
    | ExpectChangeCipherSpec(typ: byte, record: seq<byte>)
    | Get
    | Take
    | ChangeReadKey
    | OwnFlight(complete: bool, hasReply: bool)

  /** The receiver, and the messages it has handed up so far as its caller got them. */
  datatype Run = Run(st: RecvState, delivered: seq<seq<byte>>)

  /** dtls1_next_message may be called only while a message has been handed up. */
  predicate Enabled(run: Run, step: Step) {
    step.Take? ==> run.st.hasMessage
  }

  ghost function RunNext(run: Run, step: Step): Run
    requires RingInv(run.st)
  {
    match step
    case OpenRecord(typ, record) => run.(st := OpenHandshake(run.st, typ, record).0)
    case ExpectChangeCipherSpec(typ, record) => run.(st := OpenChangeCipherSpec(run.st, typ, record).0)
    case Get => if CurrentComplete(run.st) then run.(st := run.st.(hasMessage := true)) else run
    case Take =>   // its second assertion, that the current message is complete, never fails
      if CurrentComplete(run.st) then Run(NextMessage(run.st), run.delivered + [CurrentMessage(run.st)]) else run
    case ChangeReadKey =>
      (match SetReadState(run.st)
       case None => run
       case Some(st') => run.(st := st'))
    case OwnFlight(complete, hasReply) =>
      run.(st := run.st.(flightComplete := complete, flightHasReply := hasReply))
  }

  ghost predicate IsRun(run: seq<Run>, steps: seq<Step>) {
    && |run| == |steps| + 1 && run[0] == Run(Initial(run[0].st.maxLen), [])
    && forall i | 0 <= i < |steps| ::
         RingInv(run[i].st) && Enabled(run[i], steps[i]) && run[i + 1] == RunNext(run[i], steps[i])
  }

  /** A whole message with a given number and no longer than allowed, header included. */
  ghost predicate IsMessage(raw: seq<byte>, seqNum: nat, maxLen: nat) {
    exists typ, body :: IsMessageOf(raw, seqNum, maxLen, typ, body)
  }

  predicate IsMessageOf(raw: seq<byte>, seqNum: nat, maxLen: nat, typ: byte, body: seq<byte>) {
    |body| <= maxLen && |body| < U24 && raw == Header(typ, |body|, seqNum, 0, |body|).Write() + body
  }

  ghost predicate RunInv(run: Run) {
    && RingInv(run.st)
    && (run.st.hasMessage ==> CurrentComplete(run.st)) && (run.st.hasCcs ==> run.st.nullCipher)
    && run.st.readSeq == |run.delivered| % U16
    && forall k | 0 <= k < |run.delivered| :: IsMessage(run.delivered[k], k % U16, run.st.maxLen)
  }

  /** A complete message stays as it is whatever else arrives. */
  lemma FragmentKeepsComplete(st: RecvState, hdr: Header, body: seq<byte>)
    requires RingInv(st) && CurrentComplete(st) && hdr.Fits() && |body| == hdr.fragLen
    ensures var st' := ReceiveFragment(st, hdr, body).0;
            RingInv(st') && CurrentComplete(st') && CurrentMessage(st') == CurrentMessage(st)
  {
    ReceiveFragmentKeepsRing(st, hdr, body);
    CompleteSlotStays(st, hdr, body);
    hide ReceiveFragment, RingInv, Partial.Raw, Partial.Complete;
  }

  lemma CompleteSlotStays(st: RecvState, hdr: Header, body: seq<byte>)
    requires RingInv(st) && CurrentComplete(st) && hdr.Fits() && |body| == hdr.fragLen
    ensures var st', i := ReceiveFragment(st, hdr, body).0, st.readSeq % MAX_FLIGHT;
            st'.readSeq == st.readSeq && |st'.ring| == MAX_FLIGHT && st'.ring[i] == st.ring[i]
  {
    hide Partial.Raw, Partial.Complete, Placed, SlotInv;
  }

  lemma FragmentKeepsFlag(st: RecvState, hdr: Header, body: seq<byte>)
    requires RingInv(st) && hdr.Fits() && |body| == hdr.fragLen
    ensures var st' := ReceiveFragment(st, hdr, body).0; st'.(ring := st.ring) == st
  {
  }

  lemma {:induction false} FragmentsKeepComplete(st: RecvState, record: seq<byte>)
    requires RingInv(st)
    ensures var st' := ReceiveFragments(st, record).0;
            && RingInv(st') && st'.hasMessage == st.hasMessage && st'.readSeq == st.readSeq && st'.maxLen == st.maxLen
            && (CurrentComplete(st) ==> CurrentComplete(st'))
            && st'.nullCipher == st.nullCipher && st'.hasCcs == st.hasCcs
    decreases |record|
  {
    hide ReceiveFragment, CurrentComplete;
    ReceiveFragmentsKeepsRing(st, record);
    if record != [] && ParseFragment(record).Some? {
      var p := ParseFragment(record).value;
      ReceiveFragmentKeepsRing(st, p.hdr, p.body);
      FragmentKeepsFlag(st, p.hdr, p.body);
      if CurrentComplete(st) { FragmentKeepsComplete(st, p.hdr, p.body); }
      var (st', err) := ReceiveFragment(st, p.hdr, p.body);
      if err.None? { FragmentsKeepComplete(st', p.rest); }
    }
  }

  lemma OpenKeepsComplete(st: RecvState, typ: byte, record: seq<byte>)
    requires RingInv(st)
    ensures var st' := OpenHandshake(st, typ, record).0;
            && RingInv(st') && st'.hasMessage == st.hasMessage && st'.readSeq == st.readSeq && st'.maxLen == st.maxLen
            && (CurrentComplete(st) ==> CurrentComplete(st'))
            && st'.nullCipher == st.nullCipher && (st'.hasCcs ==> st.hasCcs || st.nullCipher)
  {
    OpenHandshakeKeepsRing(st, typ, record);
    if typ == RT_HANDSHAKE { FragmentsKeepComplete(st, record); }
  }

  /** Records of other types touch nothing but the flag; which of them are taken, dropped and refused. */
  lemma OtherRecords(st: RecvState, typ: byte, record: seq<byte>)
    requires RingInv(st) && typ != RT_HANDSHAKE
    ensures var (st', result) := OpenHandshake(st, typ, record);
            && st' == st.(hasCcs := st.hasCcs || result.Success?)
            && (result.Success? <==> typ == RT_CHANGE_CIPHER_SPEC && st.nullCipher && record == [MT_CCS])
            && (result.Discard? <==> typ == RT_APPLICATION_DATA && !st.nullCipher)
  {
  }

  /** A complete message under the counter is a whole message with the counter's number. */
  lemma CurrentIsMessage(st: RecvState)
    requires RingInv(st) && CurrentComplete(st)
    ensures IsMessage(CurrentMessage(st), st.readSeq, st.maxLen)
  {
    hide Header.Write, Partial.Complete, Partial.Body;
    var i := st.readSeq % MAX_FLIGHT;
    var p := st.ring[i].value;
    assert SlotInv(st.readSeq, i, p);
    assert IsMessageOf(p.Raw(), st.readSeq, st.maxLen, p.typ, p.Body());
  }

  lemma StepKeepsRun(run: Run, step: Step)
    requires RunInv(run) && Enabled(run, step)
    ensures RunInv(RunNext(run, step)) && RunNext(run, step).st.maxLen == run.st.maxLen
  {
    hide OpenHandshake, IsMessage, CurrentMessage, SlotInv;
    if step.OpenRecord? || step.ExpectChangeCipherSpec? {
      OpenKeepsComplete(run.st, step.typ, step.record);
    } else if step.Take? {
      NextMessageKeepsRing(run.st);
      CurrentIsMessage(run.st);
    } else if step.ChangeReadKey? && SetReadState(run.st).Some? {
      SetReadStateKeepsRing(run.st);
    }
  }

  /**
   In every run from a fresh connection, whatever octets the records hold: every occupied slot i holds a
   message of an allowed length congruent to i and less than 7 ahead of the counter, and in epoch 1 none is
   ahead of it at all; the messages handed up are whole ones of an allowed length, numbered 0, 1, 2 and so on
   modulo 2^16, each once; a message once shown stays until it is taken; and a ChangeCipherSpec is only ever
   pending before the first key change.
   */
  lemma {:induction false} MessagesInOrder(run: seq<Run>, steps: seq<Step>, n: nat)
    requires IsRun(run, steps) && n <= |steps|
    ensures RingInv(run[n].st) && run[n].st.readSeq == |run[n].delivered| % U16
    ensures run[n].st.hasMessage ==> CurrentComplete(run[n].st)
    ensures run[n].st.hasCcs ==> run[n].st.nullCipher
    ensures forall k | 0 <= k < |run[n].delivered| :: IsMessage(run[n].delivered[k], k % U16, run[0].st.maxLen)
  {
    hide RingInv, CurrentComplete, IsMessage, RunNext;
    RunKeepsInv(run, steps, n);
  }

  lemma {:induction false} RunKeepsInv(run: seq<Run>, steps: seq<Step>, n: nat)
    requires IsRun(run, steps) && n <= |steps|
    ensures RunInv(run[n]) && run[n].st.maxLen == run[0].st.maxLen
  {
    hide RunInv, RunNext;
    if n == 0 {
      FreshKeepsRun(run[0].st.maxLen);
    } else {
      RunKeepsInv(run, steps, n - 1);
      StepKeepsRun(run[n - 1], steps[n - 1]);
    }
  }

  lemma FreshKeepsRun(maxLen: nat)
    ensures RunInv(Run(Initial(maxLen), []))
  {
  }

  // ---- Every fragment of a record is taken ------------------------------------------------------

  /** One fragment of a record. */
  datatype Piece = Piece(hdr: Header, body: seq<byte>) {
    predicate Ok() {
      hdr.Fits() && |body| == hdr.fragLen
    }

    function Write(): seq<byte> {
      hdr.Write() + body
    }
  }

  /** The fragments at the front of a record, one after the other, and what does not parse after them. */
  function PiecesOf(record: seq<byte>): seq<Piece>
    decreases |record|
  {
    match ParseFragment(record)
    case None => []
    case Some(p) => [Piece(p.hdr, p.body)] + PiecesOf(p.rest)
  }

  function TailOf(record: seq<byte>): seq<byte>
    decreases |record|
  {
    match ParseFragment(record)
    case None => record
    case Some(p) => TailOf(p.rest)
  }

  function Joined(pieces: seq<Piece>): seq<byte> {
    if pieces == [] then [] else pieces[0].Write() + Joined(pieces[1..])
  }

  /** Every record is such fragments and such a tail. */
  lemma {:induction false} RecordSplits(record: seq<byte>)
    ensures record == Joined(PiecesOf(record)) + TailOf(record) && ParseFragment(TailOf(record)).None?
    ensures forall i | 0 <= i < |PiecesOf(record)| :: PiecesOf(record)[i].Ok()
    decreases |record|
  {
    if ParseFragment(record).Some? {
      var p := ParseFragment(record).value;
      WriteOfParse(record);
      RecordSplits(p.rest);
      assert PiecesOf(record)[1..] == PiecesOf(p.rest);
      JoinFirst(Piece(p.hdr, p.body), PiecesOf(p.rest), TailOf(record));
    }
  }

  lemma JoinFirst(piece: Piece, pieces: seq<Piece>, tail: seq<byte>)
    ensures Joined([piece] + pieces) + tail == piece.hdr.Write() + piece.body + (Joined(pieces) + tail)
  {
    assert ([piece] + pieces)[1..] == pieces;
  }

  lemma NothingParses()
    ensures ParseFragment([]).None?
  {
  }

  /** And writing fragments one after the other gives a record of just these. */
  lemma {:induction false} PiecesOfJoined(pieces: seq<Piece>)
    requires forall i | 0 <= i < |pieces| :: pieces[i].Ok()
    ensures PiecesOf(Joined(pieces)) == pieces && TailOf(Joined(pieces)) == []
  {
    hide ParseFragment, Header.Write, Header.Fits;
    if pieces == [] {
      NothingParses();
    } else {
      var rest := pieces[1..];
      PiecesOfJoined(rest);
      ParseOfWrite(pieces[0].hdr, pieces[0].body, Joined(rest));
      assert Joined(pieces) == pieces[0].hdr.Write() + pieces[0].body + Joined(rest);
      assert pieces == [pieces[0]] + rest;
    }
  }

  /** Fragments opened as records of their own, until one is refused. */
  ghost function OneByOne(st: RecvState, pieces: seq<Piece>): (RecvState, OpenResult)
    requires RingInv(st)
    decreases |pieces|
  {
    if pieces == [] then (st, Success)
    else
      OpenHandshakeKeepsRing(st, RT_HANDSHAKE, pieces[0].Write());
      var (st', result) := OpenHandshake(st, RT_HANDSHAKE, pieces[0].Write());
      if result.Success? then OneByOne(st', pieces[1..]) else (st', result)
  }

  /** A record of one fragment. */
  lemma OpenPiece(st: RecvState, piece: Piece)
    requires RingInv(st) && piece.Ok()
    ensures var (st', err) := ReceiveFragment(st, piece.hdr, piece.body);
            OpenHandshake(st, RT_HANDSHAKE, piece.Write()) == (st', if err.None? then Success else Error(err.value))
  {
    ParseOfWrite(piece.hdr, piece.body, []);
    assert piece.Write() == piece.hdr.Write() + piece.body + [];
    hide ReceiveFragment;
    ReceiveFragmentKeepsRing(st, piece.hdr, piece.body);
    assert ReceiveFragments(ReceiveFragment(st, piece.hdr, piece.body).0, []).1.Success?;
  }

  /**
   A handshake record of any octets does what its fragments, as records of their own, would do one after
   the other; what is left over and does not parse is then an error.
   */
  lemma {:induction false} RecordIsItsPieces(st: RecvState, record: seq<byte>)
    requires RingInv(st)
    ensures var (st', result) := OneByOne(st, PiecesOf(record));
            OpenHandshake(st, RT_HANDSHAKE, record) ==
              if !result.Success? then (st', result)
              else if TailOf(record) == [] then (st', Success) else (st', Error(DecodeError))
    decreases |record|
  {
    hide ReceiveFragment, RingInv;
    if ParseFragment(record).Some? {
      var p := ParseFragment(record).value;
      var piece := Piece(p.hdr, p.body);
      OpenPiece(st, piece);
      ReceiveFragmentKeepsRing(st, p.hdr, p.body);
      var (st', err) := ReceiveFragment(st, p.hdr, p.body);
      assert PiecesOf(record)[0] == piece && PiecesOf(record)[1..] == PiecesOf(p.rest);
      if err.None? {
        RecordIsItsPieces(st', p.rest);
        assert OpenHandshake(st', RT_HANDSHAKE, p.rest) == ReceiveFragments(st', p.rest);
      }
    }
  }

  /** Message n is under reassembly, and the offsets received of it. */
  predicate Started(st: RecvState, n: nat)
    requires |st.ring| == MAX_FLIGHT
  {
    var slot := st.ring[n % MAX_FLIGHT];
    slot.Some? && slot.value.seqNum == n
  }

  ghost function Got(st: RecvState, n: nat): set<nat>
    requires |st.ring| == MAX_FLIGHT
  {
    if Started(st, n) then st.ring[n % MAX_FLIGHT].value.bytes.Keys else {}
  }

  /** A fragment of a message that the ring reaches. */
  predicate Reaches(st: RecvState, n: nat) {
    st.readSeq <= n < st.readSeq + MAX_FLIGHT
  }

  /** A fragment that is not refused adds its range to its message, and nothing to any other. */
  lemma FragmentGot(st: RecvState, hdr: Header, body: seq<byte>, n: nat)
    requires RingInv(st) && hdr.Fits() && |body| == hdr.fragLen && ReceiveFragment(st, hdr, body).1.None?
    ensures var st' := ReceiveFragment(st, hdr, body).0;
            var added := n == hdr.seqNum && Reaches(st, n);
            && st'.(ring := st.ring) == st && RingInv(st')
            && Got(st', n) == Got(st, n) + (if added then Range(hdr.fragOff, hdr.fragOff + hdr.fragLen) else {})
            && (Started(st', n) <==> Started(st, n) || added)
  {
    hide ReceiveFragment, RingInv;
    ReceiveFragmentKeepsRing(st, hdr, body);
    if Reaches(st, hdr.seqNum) {
      FragmentTaken(st, hdr, body);
      SlotIsOfMessage(st, hdr);
    } else {
      FragmentIgnored(st, hdr, body);
    }
  }

  /** A fragment's slot holds its own message or none. */
  lemma SlotIsOfMessage(st: RecvState, hdr: Header)
    requires RingInv(st) && Reaches(st, hdr.seqNum)
    ensures |st.ring| == MAX_FLIGHT && Slot(st, hdr).seqNum == hdr.seqNum
    ensures Started(st, hdr.seqNum) <==> st.ring[hdr.seqNum % MAX_FLIGHT].Some?
    ensures Got(st, hdr.seqNum) == Slot(st, hdr).bytes.Keys
  {
    var slot := st.ring[hdr.seqNum % MAX_FLIGHT];
    if slot.Some? { assert SlotInv(st.readSeq, hdr.seqNum % MAX_FLIGHT, slot.value); }
  }

  lemma FragmentIgnored(st: RecvState, hdr: Header, body: seq<byte>)
    requires RingInv(st) && hdr.Fits() && |body| == hdr.fragLen && !Reaches(st, hdr.seqNum)
    ensures ReceiveFragment(st, hdr, body).0 == st
  {
  }

  /** The slot after a fragment of it has been taken, and the rest of the state as it was. */
  lemma FragmentTaken(st: RecvState, hdr: Header, body: seq<byte>)
    requires RingInv(st) && hdr.Fits() && |body| == hdr.fragLen && ReceiveFragment(st, hdr, body).1.None?
    requires Reaches(st, hdr.seqNum)
    ensures var (st', i) := (ReceiveFragment(st, hdr, body).0, hdr.seqNum % MAX_FLIGHT);
            && |st'.ring| == MAX_FLIGHT && st'.ring[i].Some? && st' == st.(ring := st.ring[i := st'.ring[i]])
            && st'.ring[i].value.seqNum == Slot(st, hdr).seqNum
            && st'.ring[i].value.bytes.Keys ==
                 Slot(st, hdr).bytes.Keys + Range(hdr.fragOff, hdr.fragOff + hdr.fragLen)
  {
    hide SlotInv, Admitted;
    var p := Slot(st, hdr);
    if p.Complete() {
      assert Range(hdr.fragOff, hdr.fragOff + hdr.fragLen) <= p.bytes.Keys;
    } else {
      assert (p.bytes + Placed(hdr.fragOff, body)).Keys == p.bytes.Keys + Range(hdr.fragOff, hdr.fragOff + hdr.fragLen);
    }
  }

  /** The octets of message n that some fragments hold between them. */
  function Covered(pieces: seq<Piece>, n: nat): set<nat> {
    if pieces == [] then {}
    else
      (if pieces[0].hdr.seqNum == n then Range(pieces[0].hdr.fragOff, pieces[0].hdr.fragOff + pieces[0].hdr.fragLen)
       else {}) + Covered(pieces[1..], n)
  }

  /**
   When no fragment is refused, what is there of each message the ring reaches is what was there before and
   what the fragments hold of it, exactly, and it is under reassembly if any was for it.
   */
  lemma {:induction false} PiecesGot(st: RecvState, pieces: seq<Piece>, n: nat)
    requires RingInv(st) && (forall i | 0 <= i < |pieces| :: pieces[i].Ok()) && OneByOne(st, pieces).1.Success?
    requires Reaches(st, n)
    ensures var st' := OneByOne(st, pieces).0;
            && st'.(ring := st.ring) == st && RingInv(st')
            && Got(st', n) == Got(st, n) + Covered(pieces, n)
            && (Started(st', n) <==> Started(st, n) || exists i :: 0 <= i < |pieces| && pieces[i].hdr.seqNum == n)
    decreases |pieces|
  {
    hide ReceiveFragment, RingInv, OpenHandshake, Started;
    if pieces != [] {
      var first := pieces[0];
      OpenPiece(st, first);
      FragmentGot(st, first.hdr, first.body, n);
      PiecesGot(ReceiveFragment(st, first.hdr, first.body).0, pieces[1..], n);
    }
  }

  /**
   So a record made of fragments of which none is refused opens with success, and each of them is held
   afterwards in its message's slot if the ring reaches that message.
   */
  lemma RecordHeld(st: RecvState, pieces: seq<Piece>, j: nat)
    requires RingInv(st) && (forall i | 0 <= i < |pieces| :: pieces[i].Ok()) && OneByOne(st, pieces).1.Success?
    requires j < |pieces| && Reaches(st, pieces[j].hdr.seqNum)
    ensures var (st', result) := OpenHandshake(st, RT_HANDSHAKE, Joined(pieces));
            && result.Success? && RingInv(st')
            && Holds(st', pieces[j].hdr.seqNum, pieces[j].hdr.fragOff, pieces[j].hdr.fragLen)
  {
    hide OpenHandshake, RingInv, OneByOne, Joined, PiecesOf, TailOf;
    RecordIsItsPieces(st, Joined(pieces));
    PiecesOfJoined(pieces);
    PiecesGot(st, pieces, pieces[j].hdr.seqNum);
    InCovered(pieces, j);
  }

  lemma {:induction false} InCovered(pieces: seq<Piece>, j: nat)
    requires j < |pieces|
    ensures Range(pieces[j].hdr.fragOff, pieces[j].hdr.fragOff + pieces[j].hdr.fragLen)
            <= Covered(pieces, pieces[j].hdr.seqNum)
  {
    if j > 0 { InCovered(pieces[1..], j - 1); }
  }

  /** Part [off, off + len) of message n has been received. */
  ghost predicate Holds(st: RecvState, n: nat, off: nat, len: nat)
    requires |st.ring| == MAX_FLIGHT
  {
    Started(st, n) && Range(off, off + len) <= Got(st, n)
  }

  // ---- Fragments that end the handshake --------------------------------------------------------

  predicate InBounds(st: RecvState, hdr: Header) {
    hdr.fragOff + hdr.fragLen <= hdr.msgLen <= st.maxLen
  }

  /** The message's slot already has a different header. */
  ghost predicate Contradicts(st: RecvState, hdr: Header)
    requires RingInv(st)
  {
    Slot(st, hdr).typ != hdr.typ || Slot(st, hdr).msgLen != hdr.msgLen
  }

  /**
   The comment over the range check says fragments too far in the future are ignored; because that
   check allows one number more than the ring holds, a well-formed fragment exactly seven ahead is
   fatal instead.  Exactly which fragments are fatal, and with which alert.
   */
  lemma FragmentFatal(st: RecvState, hdr: Header, body: seq<byte>)
    requires RingInv(st) && hdr.Fits() && |body| == hdr.fragLen
    ensures var alert := ReceiveFragment(st, hdr, body).1;
            && (alert == Some(IllegalParameter) <==>
                  || !InBounds(st, hdr)
                  || (Reaches(st, hdr.seqNum) && Contradicts(st, hdr) && (st.rEpoch == 1 ==> hdr.seqNum == st.readSeq)))
            && (alert == Some(UnexpectedMessage) <==> InBounds(st, hdr) && st.rEpoch == 1 && hdr.seqNum != st.readSeq)
            && (alert == Some(InternalError) <==>
                  InBounds(st, hdr) && st.rEpoch != 1 && hdr.seqNum == st.readSeq + MAX_FLIGHT)
            && (alert.Some? ==> alert.value in {IllegalParameter, UnexpectedMessage, InternalError})
  {
  }

  /** The smallest case of a fragment that should have been ignored but is fatal. */
  lemma SevenAheadIsFatal()
    ensures ReceiveFragment(Initial(16384), Header(1, 0, 7, 0, 0), []).1 == Some(InternalError)
  {
  }

  // ---- The code ---------------------------------------------------------------------------

  /** incoming_messages: the seven slots and the messages under reassembly in them. */
  class Ring {
    const slots: array<HmFragment?>
    ghost var abs: seq<Option<Partial>>
    ghost var repr: set<object>

    ghost predicate Valid()
      reads this, repr
    {
      && this in repr && slots in repr && slots.Length == MAX_FLIGHT == |abs|
      && (forall i | 0 <= i < MAX_FLIGHT && slots[i] != null ::
            && slots[i] in repr && slots[i].Repr() <= repr - {this, slots}
            && slots[i].Valid() && abs[i] == Some(slots[i].abs))
      && (forall i | 0 <= i < MAX_FLIGHT && slots[i] == null :: abs[i] == None)
      && (forall i, j | 0 <= i < j < MAX_FLIGHT && slots[i] != null && slots[j] != null ::
            slots[i].Repr() !! slots[j].Repr())
    }

    constructor ()
      ensures Valid() && fresh(repr)
      ensures abs == seq(MAX_FLIGHT, _ => None)
    {
      var r := new HmFragment?[MAX_FLIGHT](_ => null);
      slots := r;
      repr := {this, r};
      abs := seq(MAX_FLIGHT, _ => None);
    }

    method Insert(idx: nat, hdr: Header)
      requires Valid() && hdr.Fits() && idx < MAX_FLIGHT && slots[idx] == null
      modifies this, slots
      ensures Valid() && fresh(repr - old(repr)) && slots[idx] != null
      ensures abs == old(abs)[idx := Some(Partial(hdr.typ, hdr.seqNum, hdr.msgLen, map[]))]
    {
      hide HmFragment.Valid;
      var frag := new HmFragment(hdr);
      slots[idx] := frag;
      repr := repr + frag.Repr();
      abs := abs[idx := Some(frag.abs)];
    }

    method Add(idx: nat, off: nat, body: seq<byte>)
      requires Valid() && idx < MAX_FLIGHT && slots[idx] != null && slots[idx].reassembly != null
      requires off + |body| <= slots[idx].msgLen
      modifies this`abs, slots[idx].Repr()
      ensures Valid() && repr == old(repr)
      ensures var p := old(slots[idx].abs);
              abs == old(abs)[idx := Some(p.(bytes := p.bytes + Placed(off, body)))]
    {
      hide HmFragment.Valid, Placed;
      var frag := slots[idx];
      label before:
      frag.AddBody(off, body);
      forall i | 0 <= i < MAX_FLIGHT && i != idx && slots[i] != null
        ensures slots[i].Valid() && slots[i].Repr() == old@before(slots[i].Repr()) && slots[i].abs == old@before(slots[i].abs)
        ensures frag.Repr() !! slots[i].Repr()
      {
        assert old@before(frag.Repr()) !! old@before(slots[i].Repr());
      }
      abs := abs[idx := Some(frag.abs)];
    }

    method Clear(idx: nat)
      requires Valid() && idx < MAX_FLIGHT
      modifies this`abs, slots
      ensures Valid() && repr == old(repr) && abs == old(abs)[idx := None]
    {
      slots[idx] := null;
      abs := abs[idx := None];
    }
  }

  class Receiver {
    const ring: Ring
    const maxLen: nat
    var readSeq: nat
    var rEpoch: nat
    var nullCipher: bool
    var hasCcs: bool
    var hasMessage: bool
    var flightComplete: bool
    var flightHasReply: bool

    ghost predicate Valid()
      reads this, ring, ring.repr
    {
      ring.Valid() && this !in ring.repr && RingInv(Abs())
    }

    ghost function Abs(): (st: RecvState)
      reads this, ring
    {
      RecvState(ring.abs, readSeq, rEpoch, nullCipher, hasCcs, hasMessage,
                flightComplete, flightHasReply, maxLen)
    }

    constructor (maxLen: nat)
      ensures Valid() && fresh(ring.repr)
      ensures Abs() == Initial(maxLen)
    {
      var r := new Ring();
      ring := r;
      this.maxLen := maxLen;
      readSeq, rEpoch := 0, 0;
      nullCipher, hasCcs, hasMessage, flightComplete, flightHasReply := true, false, false, false, false;
    }

    /** One round of the loop in dtls1_open_handshake, with dtls1_get_incoming_message. */
    method Receive(hdr: Header, body: seq<byte>) returns (err: Option<Alert>)
      requires Valid() && hdr.Fits() && |body| == hdr.fragLen
      modifies ring.repr
      ensures Valid() && fresh(ring.repr - old(ring.repr))
      ensures (Abs(), err) == ReceiveFragment(old(Abs()), hdr, body)
    {
      hide SlotInv, Admitted, Placed;
      if hdr.fragOff > hdr.msgLen || hdr.fragOff + hdr.fragLen > hdr.msgLen || hdr.msgLen > maxLen {
        return Some(IllegalParameter);
      }
      if rEpoch == 1 && hdr.seqNum != readSeq {
        return Some(UnexpectedMessage);
      }
      if hdr.seqNum < readSeq || hdr.seqNum > readSeq + MAX_FLIGHT {
        return None;
      }
      if hdr.seqNum - readSeq >= MAX_FLIGHT {
        return Some(InternalError);
      }
      ReceiveFragmentKeepsRing(Abs(), hdr, body);
      var idx := hdr.seqNum % MAX_FLIGHT;
      if ring.slots[idx] != null {
        if ring.slots[idx].typ != hdr.typ || ring.slots[idx].msgLen != hdr.msgLen {
          return Some(IllegalParameter);
        }
      } else {
        ring.Insert(idx, hdr);
      }
      assert ring.abs[idx] == Some(Slot(old(Abs()), hdr));
      if ring.slots[idx].reassembly != null {
        ring.Add(idx, hdr.fragOff, body);
      }
      assert Abs().ring == ReceiveFragment(old(Abs()), hdr, body).0.ring;
      return None;
    }

    /** dtls1_open_handshake, given the opened record. */
    method Open(typ: byte, record: seq<byte>) returns (result: OpenResult)
      requires Valid()
      modifies this`hasCcs, ring.repr
      ensures Valid() && fresh(ring.repr - old(ring.repr))
      ensures (Abs(), result) == OpenHandshake(old(Abs()), typ, record)
    {
      if typ == RT_APPLICATION_DATA {
        return if nullCipher then Error(UnexpectedMessage) else Discard;
      } else if typ == RT_CHANGE_CIPHER_SPEC {
        if !nullCipher {
          return Error(UnexpectedMessage);
        }
        if record != [MT_CCS] {
          return Error(IllegalParameter);
        }
        hasCcs := true;
        return Success;
      } else if typ != RT_HANDSHAKE {
        return Error(UnexpectedMessage);
      }
      var rest := record;
      ghost var start := Abs();
      while rest != []
        invariant Valid() && fresh(ring.repr - old(ring.repr))
        invariant ReceiveFragments(start, record) == ReceiveFragments(Abs(), rest)
        decreases |rest|
      {
        var parsed := ParseFragment(rest);
        if parsed.None? {
          return Error(DecodeError);
        }
        var err := Receive(parsed.value.hdr, parsed.value.body);
        if err.Some? {
          return Error(err.value);
        }
        rest := parsed.value.rest;
      }
      return Success;
    }

    /** dtls1_get_message. */
    method GetMessage() returns (raw: Option<seq<byte>>)
      requires Valid()
      modifies this`hasMessage
      ensures Valid()
      ensures raw == if old(CurrentComplete(Abs())) then Some(old(CurrentMessage(Abs()))) else None
      ensures Abs() == if raw.Some? then old(Abs()).(hasMessage := true) else old(Abs())
    {
      var idx := readSeq % MAX_FLIGHT;
      var frag := ring.slots[idx];
      if frag == null || frag.reassembly != null {
        return None;
      }
      frag.CompleteRaw();
      hasMessage := true;
      return Some(frag.data[..]);
    }

    /** dtls1_next_message. */
    method Next()
      requires Valid() && hasMessage && CurrentComplete(Abs())
      modifies this, ring.repr
      ensures Valid() && ring.repr == old(ring.repr)
      ensures Abs() == NextMessage(old(Abs()))
    {
      hide RingInv;
      ghost var st := Abs();
      NextMessageKeepsRing(st);
      hide SlotInv;
      hide CurrentComplete;
      var idx := readSeq % MAX_FLIGHT;
      ring.Clear(idx);
      assert ring.abs == st.ring[idx := None];
      readSeq := (readSeq + 1) % U16;
      hasMessage := false;
      if flightComplete {
        flightHasReply := true;
      }
      assert Abs().ring == NextMessage(st).ring;
    }

    /** dtls1_open_change_cipher_spec, given the record it opens if it opens one. */
    method ExpectCcs(typ: byte, record: seq<byte>) returns (result: OpenResult)
      requires Valid()
      modifies this`hasCcs, ring.repr
      ensures Valid() && fresh(ring.repr - old(ring.repr))
      ensures (Abs(), result) == OpenChangeCipherSpec(old(Abs()), typ, record)
    {
      hide OpenHandshake;
      if !hasCcs {
        result := Open(typ, record);
        if !result.Success? {
          return;
        }
      }
      if hasCcs {
        hasCcs := false;
        return Success;
      }
      return Discard;
    }

    /** dtls_has_unprocessed_handshake_data. */
    method Unprocessed() returns (b: bool)
      requires Valid()
      ensures b == HasUnprocessed(Abs())
    {
      if hasCcs {
        return true;
      }
      for i := 0 to MAX_FLIGHT
        invariant forall j | 0 <= j < i :: !(ring.slots[j] != null && !(hasMessage && j == readSeq % MAX_FLIGHT))
      {
        if ring.slots[i] != null && !(hasMessage && i == readSeq % MAX_FLIGHT) {
          return true;
        }
      }
      return false;
    }

    /** dtls1_set_read_state, apart from the replay window and AEAD context. */
    method ChangeCipher() returns (ok: bool)
      requires Valid()
      modifies this`rEpoch, this`nullCipher
      ensures Valid()
      ensures ok == SetReadState(old(Abs())).Some?
      ensures Abs() == if ok then SetReadState(old(Abs())).value else old(Abs())
    {
      hide RingInv, HasUnprocessed;
      var pending := Unprocessed();
      if pending {
        return false;
      }
      SetReadStateKeepsRing(Abs());
      rEpoch := (rEpoch + 1) % U16;
      nullCipher := false;
      return true;
    }
  }
}
