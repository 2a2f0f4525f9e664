/**
 What a flight's datagrams carry, and what becomes of them: each datagram comes apart into exactly the records
 sealed into it, and once all of a completed flight's datagrams have been opened, in any order, with others in
 between, its messages are handed up.
 */
module DtlsDelivery {
  import opened Wrappers
  import opened Bytes
  import opened Aead
  import opened DtlsFragment
  import opened DtlsReassembly
  import opened DtlsReplay
  import opened DtlsRecord
  import opened DtlsTransport
  import S = DtlsSender
  import V = DtlsReceiver

  // ---- What a datagram carries ------------------------------------------------------------------

  predicate AllShaped(recs: seq<Rec>) {
    forall i | 0 <= i < |recs| :: Shaped(recs[i])
  }

  ghost predicate RecsFor(keys: Keys, recs: seq<Rec>, plains: seq<S.Plain>)
    requires KeysOk(keys)
  {
    AllShaped(recs) && |recs| == |plains| && forall i | 0 <= i < |recs| :: RecFor(keys, recs[i], plains[i])
  }

  /** A datagram is one record for each planned one, in order, and nothing else. */
  ghost predicate Carries(keys: Keys, d: seq<byte>, plains: seq<S.Plain>)
    requires KeysOk(keys)
  {
    exists recs :: RecsFor(keys, recs, plains) && d == Flatten(recs)
  }

  lemma CarriesNothing(keys: Keys)
    requires KeysOk(keys)
    ensures Carries(keys, [], [])
  {
    assert RecsFor(keys, [], []) && Flatten([]) == [];
  }

  lemma CarriesMore(keys: Keys, d: seq<byte>, plains: seq<S.Plain>, r: Rec, plain: S.Plain)
    requires KeysOk(keys) && Carries(keys, d, plains) && RecFor(keys, r, plain)
    ensures Carries(keys, d + RecordBytes(r.typ, r.version, r.wireSeq, r.ct), plains + [plain])
  {
    hide RecordBytes, KeysOk, RecFor;
    var recs: seq<Rec> :| RecsFor(keys, recs, plains) && d == Flatten(recs);
    RecShaped(keys, r, plain);
    FlattenAppend(recs, r);
    assert RecsFor(keys, recs + [r], plains + [plain]);
  }

  lemma RecShaped(keys: Keys, r: Rec, plain: S.Plain)
    requires KeysOk(keys) && RecFor(keys, r, plain)
    ensures Shaped(r)
  {
  }

  lemma SealMessageCarries(keys: Keys, st: S.SendState, maxOut: nat, d: seq<byte>, plains: seq<S.Plain>)
    requires KeysOk(keys) && WriteInv(st.ws) && KeysAgree(keys, st.ws) && st.cur.written < |st.msgs|
    requires Carries(keys, d, plains)
    ensures var result := S.SealMessage(st, maxOut).1;
            result.Progress? ==> Carries(keys, d + result.bytes, plains + [result.plain])
  {
    hide SealRecord, Carries, RecFor, S.PlanMessage;
    S.PlanUsable(st, maxOut);
    PlanEpoch(st, maxOut);
    var plan := S.PlanMessage(st, maxOut);
    if plan.PlanSeal? && SealRecord(st.ws, plan.usePrevious, plan.typ, plan.payload, maxOut).1.Sealed? {
      var r := SealedRecFor(keys, st.ws, plan.usePrevious, plan.typ, plan.payload, maxOut);
      CarriesMore(keys, d, plains, r, S.Plain(st.msgs[st.cur.written].epoch, plan.typ, plan.payload));
    }
  }

  /** A message is sealed in its own epoch. */
  lemma PlanEpoch(st: S.SendState, maxOut: nat)
    requires WriteInv(st.ws) && st.cur.written < |st.msgs|
    ensures var plan := S.PlanMessage(st, maxOut);
            plan.PlanSeal? ==>
              st.msgs[st.cur.written].epoch == if plan.usePrevious then st.ws.epoch - 1 else st.ws.epoch
  {
    hide S.ParseQueued, S.Fragment;
  }

  lemma KeysStay(keys: Keys, ws: WriteState, ws': WriteState)
    requires KeysAgree(keys, ws) && S.SameKeys(ws, ws')
    ensures KeysAgree(keys, ws')
  {
  }

  lemma {:induction false} PacketCarries(keys: Keys, st: S.SendState, maxOut: nat, bytes: seq<byte>,
                                         plains: seq<S.Plain>)
    requires KeysOk(keys) && WriteInv(st.ws) && KeysAgree(keys, st.ws) && Carries(keys, bytes, plains)
    ensures var result := S.SealPacket(st, maxOut, bytes, plains).1;
            result.Packet? ==> Carries(keys, result.bytes, result.plains)
    decreases |st.msgs| - st.cur.written
  {
    hide S.SealMessage, Carries, KeysOk, KeysAgree, S.SameKeys;
    if st.cur.written < |st.msgs| {
      S.SealMessageFrame(st, maxOut);
      SealMessageCarries(keys, st, maxOut, bytes, plains);
      var (st', result) := S.SealMessage(st, maxOut);
      KeysStay(keys, st.ws, st'.ws);
      if result.Progress? && !result.partial {
        PacketCarries(keys, st'.(cur := S.Cursor(st.cur.written + 1, st'.cur.offset)),
                      if |result.bytes| <= maxOut then maxOut - |result.bytes| else 0,
                      bytes + result.bytes, plains + [result.plain]);
      }
    }
  }

  ghost predicate AllCarry(keys: Keys, sent: seq<S.Sent>)
    requires KeysOk(keys)
  {
    forall i | 0 <= i < |sent| :: Carries(keys, sent[i].bytes, sent[i].plains)
  }

  /** Each datagram one call hands to the transport carries exactly the records it is said to. */
  lemma {:induction false} FlightCarries(keys: Keys, st: S.SendState, mtu: nat, bio: nat -> bool, k: nat, flushOk: bool)
    requires KeysOk(keys) && WriteInv(st.ws) && KeysAgree(keys, st.ws) && S.CursorOk(st.msgs, st.cur)
    ensures AllCarry(keys, S.SendFlight(st, mtu, bio, k, flushOk).1)
    decreases |st.msgs| - st.cur.written, S.BodyLeft(st)
  {
    hide S.SealPacket, Carries, KeysOk, KeysAgree, S.CursorOk, S.SameKeys;
    if st.cur.written < |st.msgs| {
      CarriesNothing(keys);
      PacketCarries(keys, st, mtu, [], []);
      S.PacketWalks(st, mtu, [], []);
      S.PacketAdvances(st, mtu);
      var (st', result) := S.SealPacket(st, mtu, [], []);
      KeysStay(keys, st.ws, st'.ws);
      if result.Packet? && bio(k) {
        FlightCarries(keys, st', mtu, bio, k + 1, flushOk);
      }
    }
  }

  /** So do those of any number of calls, resumed over transport failures. */
  lemma {:induction false} ResumeCarries(keys: Keys, st: S.SendState, calls: seq<S.Call>)
    requires KeysOk(keys) && WriteInv(st.ws) && KeysAgree(keys, st.ws) && S.CursorOk(st.msgs, st.cur) && calls != []
    ensures AllCarry(keys, S.Resume(st, calls).1)
    decreases |calls|
  {
    hide S.SendFlight, Carries, KeysOk, KeysAgree, S.CursorOk, S.Walk, S.SameKeys;
    var (st', sent, result) := S.SendFlight(st, calls[0].mtu, calls[0].bio, 0, calls[0].flushOk);
    FlightCarries(keys, st, calls[0].mtu, calls[0].bio, 0, calls[0].flushOk);
    S.FlightWalks(st, calls[0].mtu, calls[0].bio, 0, calls[0].flushOk);
    KeysStay(keys, st.ws, st'.ws);
    if |calls| > 1 && result.TransportFailed? {
      ResumeCarries(keys, st', calls[1..]);
    }
  }

  // ---- Taking a datagram apart ------------------------------------------------------------------

  /** The records ParseRecord finds from the front on. */
  function Unpack(d: seq<byte>): seq<Rec>
    decreases |d|
  {
    match ParseRecord(d)
    case None => []
    case Some(raw) =>
      [Rec(raw.typ, raw.version, raw.wireSeq, raw.body)] + Unpack(d[RT_HEADER_LENGTH + |raw.body|..])
  }

  /** Written records come apart again, if and only if none is longer than a reader takes. */
  lemma {:induction false} UnpackFlatten(recs: seq<Rec>)
    requires AllShaped(recs)
    ensures Unpack(Flatten(recs)) == recs <==> forall i | 0 <= i < |recs| :: |recs[i].ct| <= MAX_ENCRYPTED_LENGTH
    ensures AllShaped(Unpack(Flatten(recs)))
    ensures Flatten(Unpack(Flatten(recs))) == Flatten(recs) ==> Unpack(Flatten(recs)) == recs
    decreases |recs|
  {
    hide ParseRecord;
    if recs == [] {
      NoRecord();
    } else {
      FrontRecord(recs, recs[0]);
      UnpackFlatten(recs[1..]);
      assert recs == [recs[0]] + recs[1..];
      if |recs[0].ct| <= MAX_ENCRYPTED_LENGTH {
        var rest := Unpack(Flatten(recs[1..]));
        assert Unpack(Flatten(recs)) == [recs[0]] + rest;
        FlattenFirst(recs[0], rest);
        FlattenFirst(recs[0], recs[1..]);
      }
    }
  }

  lemma NoRecord()
    ensures Unpack([]) == [] && Flatten([]) == []
  {
  }

  lemma FlattenFirst(r: Rec, rest: seq<Rec>)
    requires Shaped(r) && AllShaped(rest)
    ensures AllShaped([r] + rest)
    ensures Flatten([r] + rest) == RecordBytes(r.typ, r.version, r.wireSeq, r.ct) + Flatten(rest)
  {
    hide RecordBytes;
    assert ([r] + rest)[0] == r && ([r] + rest)[1..] == rest;
  }

  /**
   Taken apart from the front, each datagram of a flight that is no longer than the longest record a reader
   takes is exactly as many records as were sealed into it, with no rest; the i-th has the type and epoch of
   the i-th sealed and opens to its payload under the key of that epoch.
   */
  lemma DatagramsUnpack(keys: Keys, st: S.SendState, calls: seq<S.Call>, i: nat)
    requires KeysOk(keys) && WriteInv(st.ws) && KeysAgree(keys, st.ws) && S.CursorOk(st.msgs, st.cur) && calls != []
    requires i < |S.Resume(st, calls).1|
    requires |S.Resume(st, calls).1[i].bytes| <= RT_HEADER_LENGTH + MAX_ENCRYPTED_LENGTH
    ensures var sent := S.Resume(st, calls).1[i];
            && RecsFor(keys, Unpack(sent.bytes), sent.plains)
            && AllShaped(Unpack(sent.bytes)) && Flatten(Unpack(sent.bytes)) == sent.bytes
  {
    hide S.Resume, RecFor, KeysAgree, WriteInv, S.CursorOk;
    ResumeCarries(keys, st, calls);
    var sent := S.Resume(st, calls).1[i];
    assert Carries(keys, sent.bytes, sent.plains);
    CarriedUnpacks(keys, sent.bytes, sent.plains);
  }

  lemma CarriedUnpacks(keys: Keys, d: seq<byte>, plains: seq<S.Plain>)
    requires KeysOk(keys) && Carries(keys, d, plains) && |d| <= RT_HEADER_LENGTH + MAX_ENCRYPTED_LENGTH
    ensures RecsFor(keys, Unpack(d), plains) && AllShaped(Unpack(d)) && Flatten(Unpack(d)) == d
  {
    hide Unpack, Flatten, RecFor;
    var recs: seq<Rec> :| RecsFor(keys, recs, plains) && d == Flatten(recs);
    forall i | 0 <= i < |recs| ensures |recs[i].ct| <= MAX_ENCRYPTED_LENGTH { RecFits(recs, i); }
    UnpackFlatten(recs);
  }

  lemma {:induction false} RecFits(recs: seq<Rec>, i: nat)
    requires AllShaped(recs) && i < |recs|
    ensures RT_HEADER_LENGTH + |recs[i].ct| <= |Flatten(recs)|
    decreases |recs|
  {
    hide RecordBytes;
    FlattenFirst(recs[0], recs[1..]);
    assert recs == [recs[0]] + recs[1..];
    if i > 0 { RecFits(recs[1..], i - 1); }
  }

  // ---- What a reader opens of the datagrams that arrive -----------------------------------------

  datatype Content = Content(typ: byte, payload: seq<byte>)

  /** The epoch and number of a record, together and apart. */
  function Number(r: Rec): nat
    requires Shaped(r)
  {
    FromBe(r.wireSeq)
  }

  function EpochOf(r: Rec): nat
    requires Shaped(r)
  {
    FromBe(r.wireSeq[..2])
  }

  /** A record the reader does not take offence at: of the right version and size, and genuine if of its epoch. */
  predicate Receivable(rs: ReadState, r: Rec)
    requires !rs.aead.isNull ==> rs.aead.layout.Valid()
  {
    && Shaped(r) && VersionOk(rs, r.version) && |r.ct| <= MAX_ENCRYPTED_LENGTH
    && (EpochOf(r) == rs.epoch ==>
          && r.typ != DtlsRecord.RT_ALERT
          && var plain := rs.aead.Open(r.typ, r.version, r.wireSeq, r.ct);
             plain.Some? && |plain.value| <= DtlsRecord.MAX_PLAIN_LENGTH)
  }

  function ContentOf(rs: ReadState, r: Rec): Content
    requires (!rs.aead.isNull ==> rs.aead.layout.Valid()) && Receivable(rs, r) && EpochOf(r) == rs.epoch
  {
    Content(r.typ, rs.aead.Open(r.typ, r.version, r.wireSeq, r.ct).value)
  }

  predicate AllReceivable(rs: ReadState, recs: seq<Rec>)
    requires !rs.aead.isNull ==> rs.aead.layout.Valid()
  {
    forall i | 0 <= i < |recs| :: Receivable(rs, recs[i])
  }

  /** Opening records one after the other: each of this epoch that the window lets through. */
  ghost function OpenRecs(rs: ReadState, recs: seq<Rec>): (ReadState, seq<Content>)
    requires ReadInv(rs) && AllReceivable(rs, recs)
    decreases |recs|
  {
    if recs == [] then (rs, [])
    else
      assert Receivable(rs, recs[0]);
      if EpochOf(recs[0]) != rs.epoch || ShouldDiscard(rs.window, Number(recs[0])) then OpenRecs(rs, recs[1..])
      else
        var rs' := rs.(window := Record(rs.window, Number(recs[0])));
        SameReader(rs, rs', recs[1..]);
        var (end, more) := OpenRecs(rs', recs[1..]);
        (end, [ContentOf(rs, recs[0])] + more)
  }

  lemma SameReader(rs: ReadState, rs': ReadState, recs: seq<Rec>)
    requires ReadInv(rs) && rs' == rs.(window := rs'.window) && AllReceivable(rs, recs)
    ensures AllReceivable(rs', recs)
  {
    forall i | 0 <= i < |recs| ensures Receivable(rs', recs[i]) { assert Receivable(rs, recs[i]); }
  }

  /** Opening a datagram by dtls_open_record, again and again until it is used up or an error ends it. */
  ghost function OpenDatagram(rs: ReadState, d: seq<byte>): (ReadState, seq<Content>)
    requires ReadInv(rs)
    decreases |d|
  {
    var (rs', result) := OpenRecord(rs, d);
    match result
    case Opened(typ, plaintext, consumed) =>
      var (end, more) := OpenDatagram(rs', d[consumed..]);
      (end, [Content(typ, plaintext)] + more)
    case AlertRecord(_, consumed) => OpenDatagram(rs', d[consumed..])
    case Dropped(consumed) => OpenDatagram(rs', d[consumed..])
    case RecordOverflow(_) => (rs', [])
    case NeedMore => (rs', [])
    case CloseNotify => (rs', [])
  }

  ghost function OpenStream(rs: ReadState, arrivals: seq<seq<byte>>): (ReadState, seq<Content>)
    requires ReadInv(rs)
    decreases |arrivals|
  {
    if arrivals == [] then (rs, [])
    else
      ReaderStays(rs, arrivals[0]);
      var (rs', first) := OpenDatagram(rs, arrivals[0]);
      var (end, more) := OpenStream(rs', arrivals[1..]);
      (end, first + more)
  }

  lemma {:induction false} ReaderStays(rs: ReadState, d: seq<byte>)
    requires ReadInv(rs)
    ensures var rs' := OpenDatagram(rs, d).0; ReadInv(rs') && rs' == rs.(window := rs'.window)
    decreases |d|
  {
    hide ShouldDiscard, Record, ParseRecord, Aead.Open;
    var (rs', result) := OpenRecord(rs, d);
    match result
    case Opened(_, _, consumed) => ReaderStays(rs', d[consumed..]);
    case AlertRecord(_, consumed) => ReaderStays(rs', d[consumed..]);
    case Dropped(consumed) => ReaderStays(rs', d[consumed..]);
    case _ =>
  }

  /** A datagram that is records from end to end. */
  ghost predicate ComesApart(d: seq<byte>) {
    AllShaped(Unpack(d)) && Flatten(Unpack(d)) == d
  }

  lemma RestComesApart(d: seq<byte>)
    requires ComesApart(d) && d != []
    ensures ParseRecord(d).Some?
    ensures var raw := ParseRecord(d).value;
            var rest := d[RT_HEADER_LENGTH + |raw.body|..];
            && Unpack(d) == [Rec(raw.typ, raw.version, raw.wireSeq, raw.body)] + Unpack(rest) && ComesApart(rest)
  {
    if ParseRecord(d).None? {
      assert false;
    } else {
      var raw := ParseRecord(d).value;
      var r, rest := Rec(raw.typ, raw.version, raw.wireSeq, raw.body), d[RT_HEADER_LENGTH + |raw.body|..];
      RecordOfParse(d);
      assert Unpack(d)[1..] == Unpack(rest);
      forall i | 0 <= i < |Unpack(rest)| ensures Shaped(Unpack(rest)[i]) { assert Unpack(d)[i + 1] == Unpack(rest)[i]; }
      FlattenFirst(r, Unpack(rest));
      hide RecordBytes;
      var front := RecordBytes(r.typ, r.version, r.wireSeq, r.ct);
      assert front + Flatten(Unpack(rest)) == front + rest;
      assert (front + Flatten(Unpack(rest)))[|front|..] == (front + rest)[|front|..];
    }
  }

  /** The next record of a datagram, if the reader can take it. */
  lemma OpenNext(rs: ReadState, d: seq<byte>)
    requires ReadInv(rs) && !rs.closed && ParseRecord(d).Some?
    requires var raw := ParseRecord(d).value; Receivable(rs, Rec(raw.typ, raw.version, raw.wireSeq, raw.body))
    ensures var raw := ParseRecord(d).value;
            var r, rest := Rec(raw.typ, raw.version, raw.wireSeq, raw.body), d[RT_HEADER_LENGTH + |raw.body|..];
            OpenDatagram(rs, d) ==
              if EpochOf(r) != rs.epoch || ShouldDiscard(rs.window, Number(r)) then OpenDatagram(rs, rest)
              else
                var (end, more) := OpenDatagram(rs.(window := Record(rs.window, Number(r))), rest);
                (end, [ContentOf(rs, r)] + more)
  {
    hide ShouldDiscard, Record;
  }

  /** A datagram opens to what its records open to. */
  lemma {:induction false} DatagramIsRecs(rs: ReadState, d: seq<byte>)
    requires ReadInv(rs) && !rs.closed && ComesApart(d) && AllReceivable(rs, Unpack(d))
    ensures OpenDatagram(rs, d) == OpenRecs(rs, Unpack(d))
    decreases |d|
  {
    hide Unpack, ComesApart, OpenRecord, OpenDatagram, ShouldDiscard, Record, ContentOf, Receivable;
    if d == [] {
      NoRecord();
      NothingOpened(rs);
    } else {
      RestComesApart(d);
      var raw := ParseRecord(d).value;
      var r, rest := Rec(raw.typ, raw.version, raw.wireSeq, raw.body), d[RT_HEADER_LENGTH + |raw.body|..];
      var recs := Unpack(d);
      assert recs[0] == r && recs[1..] == Unpack(rest) && Receivable(rs, recs[0]);
      ReceivableShaped(rs, r);
      OpenNext(rs, d);
      var rs' := rs.(window := Record(rs.window, Number(r)));
      SameReader(rs, rs', recs[1..]);
      DatagramIsRecs(rs, rest);
      DatagramIsRecs(rs', rest);
    }
  }

  lemma ReceivableShaped(rs: ReadState, r: Rec)
    requires ReadInv(rs) && Receivable(rs, r)
    ensures Shaped(r)
  {
  }

  lemma NothingOpened(rs: ReadState)
    requires ReadInv(rs)
    ensures OpenDatagram(rs, []) == (rs, [])
  {
  }

  /** All the records that arrive, in the order in which they do. */
  function AllRecs(arrivals: seq<seq<byte>>): seq<Rec> {
    if arrivals == [] then [] else Unpack(arrivals[0]) + AllRecs(arrivals[1..])
  }

  lemma {:induction false} RecsConcat(rs: ReadState, a: seq<Rec>, b: seq<Rec>)
    requires ReadInv(rs) && AllReceivable(rs, a) && AllReceivable(rs, b)
    ensures AllReceivable(rs, a + b)
    ensures var (rs', first) := OpenRecs(rs, a);
            && ReadInv(rs') && AllReceivable(rs', b) && rs' == rs.(window := rs'.window)
            && OpenRecs(rs, a + b) == (OpenRecs(rs', b).0, first + OpenRecs(rs', b).1)
    decreases |a|
  {
    hide ShouldDiscard, Record, ContentOf, Receivable;
    if a == [] {
      assert a + b == b;
      NoRecs(rs);
      assert [] + OpenRecs(rs, b).1 == OpenRecs(rs, b).1;
    } else {
      assert Receivable(rs, a[0]);
      ReceivableShaped(rs, a[0]);
      var rs' := rs.(window := Record(rs.window, Number(a[0])));
      SameReader(rs, rs', a[1..]);
      SameReader(rs, rs', b);
      RecsConcat(rs, a[1..], b);
      RecsConcat(rs', a[1..], b);
      assert (a + b)[0] == a[0] && (a + b)[1..] == a[1..] + b;
      if EpochOf(a[0]) == rs.epoch && !ShouldDiscard(rs.window, Number(a[0])) {
        var (end, more) := OpenRecs(rs', a[1..]);
        var c, last := ContentOf(rs, a[0]), OpenRecs(end, b).1;
        assert [c] + (more + last) == [c] + more + last;
      }
    }
  }

  ghost predicate ArrivalsFit(rs: ReadState, arrivals: seq<seq<byte>>)
    requires ReadInv(rs)
  {
    forall d | d in arrivals :: ComesApart(d) && AllReceivable(rs, Unpack(d))
  }

  lemma {:induction false} StreamIsRecs(rs: ReadState, arrivals: seq<seq<byte>>)
    requires ReadInv(rs) && !rs.closed && ArrivalsFit(rs, arrivals)
    ensures AllReceivable(rs, AllRecs(arrivals))
    ensures OpenStream(rs, arrivals) == OpenRecs(rs, AllRecs(arrivals))
    decreases |arrivals|
  {
    hide Unpack, ComesApart, OpenDatagram, Receivable, OpenRecs;
    if arrivals == [] {
      NoRecs(rs);
    } else {
      var d, rest := arrivals[0], arrivals[1..];
      assert ComesApart(d) && AllReceivable(rs, Unpack(d));
      ReaderStays(rs, d);
      DatagramIsRecs(rs, d);
      var rs' := OpenDatagram(rs, d).0;
      StreamIsRecs(rs, rest);
      forall e | e in rest ensures ComesApart(e) && AllReceivable(rs', Unpack(e)) {
        SameReader(rs, rs', Unpack(e));
      }
      StreamIsRecs(rs', rest);
      RecsConcat(rs, Unpack(d), AllRecs(rest));
    }
  }

  lemma NoRecs(rs: ReadState)
    requires ReadInv(rs)
    ensures OpenRecs(rs, []) == (rs, [])
  {
  }

  // ---- What is fresh is opened ------------------------------------------------------------------

  /** Its number has not been accepted, and nothing accepted or still to come in its epoch is 64 ahead of it. */
  ghost predicate InTime(rs: ReadState, accepted: set<nat>, recs: seq<Rec>, r: Rec) {
    && Shaped(r) && Number(r) !in accepted && rs.window.max < Number(r) + WINDOW
    && forall q | q in recs && Shaped(q) && EpochOf(q) == rs.epoch :: Number(q) < Number(r) + WINDOW
  }

  /** No two different records with one number. */
  ghost predicate Unambiguous(recs: seq<Rec>) {
    forall q, r | q in recs && r in recs && q.wireSeq == r.wireSeq :: q == r
  }

  lemma SameNumberSameSeq(q: Rec, r: Rec)
    requires Shaped(q) && Shaped(r) && Number(q) == Number(r)
    ensures q.wireSeq == r.wireSeq
  {
    BeOfFromBe(q.wireSeq);
    BeOfFromBe(r.wireSeq);
  }

  /** A record in time is opened, once it comes, whatever comes before it. */
  lemma {:induction false} FreshOpened(rs: ReadState, accepted: set<nat>, recs: seq<Rec>, r: Rec)
    requires ReadInv(rs) && AllReceivable(rs, recs) && Tracks(rs.window, accepted) && Unambiguous(recs)
    requires r in recs && InTime(rs, accepted, recs, r) && Receivable(rs, r) && EpochOf(r) == rs.epoch
    ensures ContentOf(rs, r) in OpenRecs(rs, recs).1
    decreases |recs|
  {
    hide ShouldDiscard, Record, Receivable, Tracks;
    var q, rest := recs[0], recs[1..];
    assert Receivable(rs, q);
    ReceivableShaped(rs, q);
    DiscardExact(rs.window, accepted, Number(q));
    DiscardExact(rs.window, accepted, Number(r));
    if q != r {
      if Number(q) == Number(r) { SameNumberSameSeq(q, r); }
      if EpochOf(q) != rs.epoch || ShouldDiscard(rs.window, Number(q)) {
        FreshOpened(rs, accepted, rest, r);
      } else {
        var rs' := rs.(window := Record(rs.window, Number(q)));
        RecordTracks(rs.window, accepted, Number(q));
        SameReader(rs, rs', rest);
        SameReceiver(rs, rs', r);
        FreshOpened(rs', accepted + {Number(q)}, rest, r);
      }
    }
  }

  lemma SameReceiver(rs: ReadState, rs': ReadState, r: Rec)
    requires ReadInv(rs) && rs' == rs.(window := rs'.window) && Receivable(rs, r) && EpochOf(r) == rs.epoch
    ensures Receivable(rs', r) && ContentOf(rs', r) == ContentOf(rs, r)
  {
  }

  // ---- From what was opened to what is handed up ------------------------------------------------

  /** Content that the receiver has no reason to refuse: a fragment that the ring reaches, or the ChangeCipherSpec. */
  ghost predicate Comes(sent: seq<Message>, rcv: V.RecvState, c: Content) {
    || (c.typ == V.RT_CHANGE_CIPHER_SPEC && c.payload == [V.MT_CCS] && rcv.nullCipher)
    || (c.typ == V.RT_HANDSHAKE && exists n, off, len :: ComesAs(sent, rcv, n, off, len, c.payload))
  }

  predicate ComesAs(sent: seq<Message>, rcv: V.RecvState, n: nat, off: nat, len: nat, payload: seq<byte>) {
    && IsFragment(sent, n, off, len, payload) && n < rcv.readSeq + V.MAX_FLIGHT && |sent[n].body| <= rcv.maxLen
    && (rcv.rEpoch == 1 ==> n == rcv.readSeq)
  }

  /** The receiver as it is but for what it has taken in. */
  predicate SameSide(rcv: V.RecvState, rcv': V.RecvState) {
    rcv'.(ring := rcv.ring, hasCcs := rcv.hasCcs) == rcv
  }

  /** Contents handed to dtls1_open_handshake one after the other, as long as none of them is refused. */
  ghost function Arrive(rcv: V.RecvState, contents: seq<Content>): Option<V.RecvState>
    requires V.RingInv(rcv)
    decreases |contents|
  {
    if contents == [] then Some(rcv)
    else
      V.OpenHandshakeKeepsRing(rcv, contents[0].typ, contents[0].payload);
      var (rcv', result) := V.OpenHandshake(rcv, contents[0].typ, contents[0].payload);
      if result.Success? then Arrive(rcv', contents[1..]) else None
  }

  /** One more genuine fragment is not refused, is held from then on, and displaces nothing. */
  lemma FragmentArrives(sent: seq<Message>, rcv: V.RecvState, n: nat, off: nat, len: nat, payload: seq<byte>)
    requires SentOk(sent) && RingOk(sent, rcv) && ComesAs(sent, rcv, n, off, len, payload)
    ensures var (rcv', result) := V.OpenHandshake(rcv, V.RT_HANDSHAKE, payload);
            && result.Success? && RingOk(sent, rcv') && SameSide(rcv, rcv')
            && (n >= rcv.readSeq ==> V.Holds(rcv', n, off, len))
            && forall m: nat, a: nat, b: nat | V.Holds(rcv, m, a, b) :: V.Holds(rcv', m, a, b)
  {
    hide V.ReceiveFragment, V.OpenHandshake, V.Got, V.Started, V.SlotInv, V.Admitted;
    var hdr, part := Header(sent[n].typ, |sent[n].body|, n, off, len), sent[n].body[off..off + len];
    FragmentKeepsRing(sent, rcv, n, off, len);
    if n >= rcv.readSeq { SlotOk(sent, rcv, hdr); }
    V.FragmentFatal(rcv, hdr, part);
    V.FragmentGot(rcv, hdr, part, n);
    var rcv' := V.ReceiveFragment(rcv, hdr, part).0;
    forall m: nat, a: nat, b: nat | V.Holds(rcv, m, a, b) ensures V.Holds(rcv', m, a, b) {
      V.FragmentGot(rcv, hdr, part, m);
    }
    V.OpenPiece(rcv, V.Piece(hdr, part));
  }

  lemma ContentArrives(sent: seq<Message>, rcv: V.RecvState, c: Content)
    requires SentOk(sent) && RingOk(sent, rcv) && Comes(sent, rcv, c)
    ensures var (rcv', result) := V.OpenHandshake(rcv, c.typ, c.payload);
            && result.Success? && RingOk(sent, rcv') && SameSide(rcv, rcv')
            && (forall n: nat, off: nat, len: nat |
                  c.typ == V.RT_HANDSHAKE && n >= rcv.readSeq && ComesAs(sent, rcv, n, off, len, c.payload) ::
                  V.Holds(rcv', n, off, len))
            && forall m: nat, a: nat, b: nat | V.Holds(rcv, m, a, b) :: V.Holds(rcv', m, a, b)
  {
    if c.typ == V.RT_HANDSHAKE {
      hide V.OpenHandshake, RingOk, SentOk, V.Holds, ComesAs;
      forall n: nat, off: nat, len: nat | ComesAs(sent, rcv, n, off, len, c.payload)
        ensures var (rcv', result) := V.OpenHandshake(rcv, c.typ, c.payload);
                && result.Success? && RingOk(sent, rcv') && SameSide(rcv, rcv')
                && (n >= rcv.readSeq ==> V.Holds(rcv', n, off, len))
                && forall m: nat, a: nat, b: nat | V.Holds(rcv, m, a, b) :: V.Holds(rcv', m, a, b)
      {
        FragmentArrives(sent, rcv, n, off, len, c.payload);
      }
    } else {
      V.OtherRecords(rcv, c.typ, c.payload);
      V.OpenHandshakeKeepsRing(rcv, c.typ, c.payload);
    }
  }

  lemma SameSideComes(sent: seq<Message>, rcv: V.RecvState, rcv': V.RecvState, c: Content)
    requires SameSide(rcv, rcv') && Comes(sent, rcv, c)
    ensures Comes(sent, rcv', c)
  {
    if c.typ == V.RT_HANDSHAKE {
      var n: nat, off: nat, len: nat :| ComesAs(sent, rcv, n, off, len, c.payload);
      assert ComesAs(sent, rcv', n, off, len, c.payload);
    }
  }

  /** What was held, or comes as content j, is held when all have come; none is refused. */
  lemma {:induction false} AllArrive(sent: seq<Message>, rcv: V.RecvState, contents: seq<Content>,
                                     j: int, n: nat, off: nat, len: nat)
    requires SentOk(sent) && RingOk(sent, rcv) && n >= rcv.readSeq
    requires forall c | c in contents :: Comes(sent, rcv, c)
    requires 0 <= j < |contents| ==>
               contents[j].typ == V.RT_HANDSHAKE && ComesAs(sent, rcv, n, off, len, contents[j].payload)
    ensures Arrive(rcv, contents).Some?
    ensures var end := Arrive(rcv, contents).value;
            && RingOk(sent, end) && SameSide(rcv, end)
            && (0 <= j < |contents| || V.Holds(rcv, n, off, len) ==> V.Holds(end, n, off, len))
    decreases |contents|
  {
    hide V.OpenHandshake, PartialOk, V.SlotInv, V.Admitted, SentOk, V.Holds, Comes, IsFragment;
    if contents != [] {
      var c := contents[0];
      assert Comes(sent, rcv, c);
      ContentArrives(sent, rcv, c);
      var rcv' := V.OpenHandshake(rcv, c.typ, c.payload).0;
      forall q | q in contents[1..] ensures Comes(sent, rcv', q) {
        SameSideComes(sent, rcv, rcv', q);
      }
      AllArrive(sent, rcv', contents[1..], j - 1, n, off, len);
    }
  }

  lemma RawParses(sent: seq<Message>, n: nat)
    requires SentOk(sent) && n < |sent|
    ensures S.ParseQueued(RawOf(sent, n)) ==
              Some((Header(sent[n].typ, |sent[n].body|, n, 0, |sent[n].body|), sent[n].body))
  {
    var hdr := Header(sent[n].typ, |sent[n].body|, n, 0, |sent[n].body|);
    ParseOfWrite(hdr, sent[n].body, []);
    assert hdr.Write() + sent[n].body + [] == RawOf(sent, n);
  }

  /** Message n is queued in an epoch. */
  predicate InFlight(sent: seq<Message>, msgs: seq<S.OutMsg>, n: nat, epoch: nat) {
    n < |sent| && exists i | 0 <= i < |msgs| :: QueuedAs(sent, msgs[i], n, epoch)
  }

  predicate QueuedAs(sent: seq<Message>, m: S.OutMsg, n: nat, epoch: nat)
    requires n < |sent|
  {
    !m.isCcs && m.data == RawOf(sent, n) && m.epoch == epoch
  }

  /** The records of a completed flight have covered every octet of each message in it. */
  lemma FlightCovers(sent: seq<Message>, msgs: seq<S.OutMsg>, plains: seq<S.Plain>, n: nat, epoch: nat, k: nat)
      returns (plain: S.Plain, off: nat, len: nat)
    requires SentOk(sent) && InFlight(sent, msgs, n, epoch)
    requires S.Walk(msgs, S.Cursor(0, 0), plains) == Some(S.Cursor(|msgs|, 0))
    requires k < |sent[n].body| || (k == 0 && sent[n].body == [])
    ensures plain in plains && plain.typ == S.RT_HANDSHAKE && plain.epoch == epoch
    ensures IsFragment(sent, n, off, len, plain.payload) && off <= k && (k < off + len || sent[n].body == [])
  {
    hide S.Walk;
    RawParses(sent, n);
    var i :| 0 <= i < |msgs| && QueuedAs(sent, msgs[i], n, epoch);
    hide S.ParseQueued, RawOf, SentOk;
    plain, off, len := S.WalkCovers(msgs, S.Cursor(0, 0), plains, i, k);
  }

  /** All handshake records of an epoch that a flight is made of are among the contents. */
  ghost predicate AllHere(plains: seq<S.Plain>, epoch: nat, contents: seq<Content>) {
    forall p | p in plains && p.typ == S.RT_HANDSHAKE && p.epoch == epoch :: Content(p.typ, p.payload) in contents
  }

  /** Message n is expected by the receiver, and in the flight. */
  predicate Due(sent: seq<Message>, msgs: seq<S.OutMsg>, rcv: V.RecvState, epoch: nat, n: nat) {
    && rcv.readSeq <= n < rcv.readSeq + V.MAX_FLIGHT && InFlight(sent, msgs, n, epoch) && |sent[n].body| <= rcv.maxLen
    && (rcv.rEpoch == 1 ==> n == rcv.readSeq)
  }

  /** Each octet of such a message is there once all the flight's records have come. */
  lemma OctetHeld(sent: seq<Message>, msgs: seq<S.OutMsg>, plains: seq<S.Plain>, rcv: V.RecvState,
                  contents: seq<Content>, epoch: nat, n: nat, k: nat)
    requires SentOk(sent) && RingOk(sent, rcv) && Due(sent, msgs, rcv, epoch, n)
    requires S.Walk(msgs, S.Cursor(0, 0), plains) == Some(S.Cursor(|msgs|, 0))
    requires AllHere(plains, epoch, contents) && forall c | c in contents :: Comes(sent, rcv, c)
    requires k < |sent[n].body| || (k == 0 && sent[n].body == [])
    ensures Arrive(rcv, contents).Some?
    ensures var end := Arrive(rcv, contents).value;
            && RingOk(sent, end) && SameSide(rcv, end) && V.Holds(end, n, k, if sent[n].body == [] then 0 else 1)
  {
    hide S.Walk, Arrive, V.SlotInv, V.Admitted, PartialOk, SentOk, Comes, IsFragment;
    var plain, off, len := FlightCovers(sent, msgs, plains, n, epoch, k);
    assert Content(plain.typ, plain.payload) in contents;
    var j :| 0 <= j < |contents| && contents[j] == Content(plain.typ, plain.payload);
    AllArrive(sent, rcv, contents, j, n, off, len);
  }

  /** Message n has been received from end to end. */
  ghost predicate Whole(sent: seq<Message>, rcv: V.RecvState, n: nat)
    requires V.RingInv(rcv)
  {
    n < |sent| && V.Holds(rcv, n, 0, |sent[n].body|)
  }

  lemma MessageHeld(sent: seq<Message>, msgs: seq<S.OutMsg>, plains: seq<S.Plain>, rcv: V.RecvState,
                    contents: seq<Content>, epoch: nat, n: nat)
    requires SentOk(sent) && RingOk(sent, rcv) && Due(sent, msgs, rcv, epoch, n)
    requires S.Walk(msgs, S.Cursor(0, 0), plains) == Some(S.Cursor(|msgs|, 0))
    requires AllHere(plains, epoch, contents) && forall c | c in contents :: Comes(sent, rcv, c)
    ensures Arrive(rcv, contents).Some?
    ensures var end := Arrive(rcv, contents).value;
            RingOk(sent, end) && SameSide(rcv, end) && Whole(sent, end, n)
  {
    hide S.Walk, Arrive, PartialOk, SentOk, Comes, V.SlotInv, V.Admitted, AllHere;
    OctetHeld(sent, msgs, plains, rcv, contents, epoch, n, 0);
    var end := Arrive(rcv, contents).value;
    forall k | 0 <= k < |sent[n].body| ensures k in V.Got(end, n) {
      OctetHeld(sent, msgs, plains, rcv, contents, epoch, n, k);
      assert k in Range(k, k + 1);
    }
  }

  /** The next count messages, handed up and taken one after the other; None if one is not complete in its turn. */
  ghost function HandUp(rcv: V.RecvState, count: nat): Option<seq<seq<byte>>>
    requires V.RingInv(rcv)
    decreases count
  {
    if count == 0 then Some([])
    else if !V.CurrentComplete(rcv) then None
    else
      V.NextMessageKeepsRing(rcv);
      var rest := HandUp(V.NextMessage(rcv), count - 1);
      if rest.None? then None else Some([V.CurrentMessage(rcv)] + rest.value)
  }

  lemma WholeIsComplete(sent: seq<Message>, rcv: V.RecvState)
    requires SentOk(sent) && RingOk(sent, rcv) && Whole(sent, rcv, rcv.readSeq)
    ensures V.CurrentComplete(rcv) && V.CurrentMessage(rcv) == RawOf(sent, rcv.readSeq)
  {
    CoveredCompletes(sent, rcv);
  }

  /** Taking the current message leaves the later ones as they are. */
  lemma TakeKeepsWhole(sent: seq<Message>, rcv: V.RecvState, n: nat)
    requires SentOk(sent) && RingOk(sent, rcv) && rcv.readSeq < n && Whole(sent, rcv, n)
    ensures V.RingInv(V.NextMessage(rcv)) && Whole(sent, V.NextMessage(rcv), n)
  {
    V.NextMessageKeepsRing(rcv);
    assert V.SlotInv(rcv.readSeq, n % V.MAX_FLIGHT, rcv.ring[n % V.MAX_FLIGHT].value);
  }

  lemma TakeKeepsRing(sent: seq<Message>, rcv: V.RecvState)
    requires RingOk(sent, rcv)
    ensures RingOk(sent, V.NextMessage(rcv))
  {
    V.NextMessageKeepsRing(rcv);
    var rcv' := V.NextMessage(rcv);
    forall i | 0 <= i < V.MAX_FLIGHT && rcv'.ring[i].Some? ensures PartialOk(sent, rcv'.ring[i].value) {
      assert rcv'.ring[i] == rcv.ring[i];
    }
  }

  lemma {:induction false} WholeHandedUp(sent: seq<Message>, rcv: V.RecvState, count: nat)
    requires SentOk(sent) && RingOk(sent, rcv) && rcv.readSeq + count <= |sent|
    requires forall n | rcv.readSeq <= n < rcv.readSeq + count :: Whole(sent, rcv, n)
    ensures HandUp(rcv, count).Some?
    ensures var got := HandUp(rcv, count).value;
            |got| == count && forall k: nat | k < count :: got[k] == RawOf(sent, rcv.readSeq + k)
    decreases count
  {
    hide RawOf, Whole, V.CurrentComplete, V.CurrentMessage, V.RingInv, PartialOk;
    if count > 0 {
      WholeIsComplete(sent, rcv);
      TakeKeepsRing(sent, rcv);
      var rcv' := V.NextMessage(rcv);
      if count > 1 {
        assert rcv'.readSeq == rcv.readSeq + 1;
        forall n | rcv'.readSeq <= n < rcv'.readSeq + (count - 1) ensures Whole(sent, rcv', n) {
          TakeKeepsWhole(sent, rcv, n);
        }
        WholeHandedUp(sent, rcv', count - 1);
      }
    }
  }

  /** None of the contents is refused, and the messages from the counter on come up in turn, as they were queued. */
  ghost predicate AllHandedUp(sent: seq<Message>, rcv: V.RecvState, contents: seq<Content>, count: nat)
    requires V.RingInv(rcv)
  {
    var end := Arrive(rcv, contents);
    && end.Some? && V.RingInv(end.value)
    && var got := HandUp(end.value, count);
       && got.Some? && |got.value| == count && rcv.readSeq + count <= |sent|
       && forall k: nat | k < count :: got.value[k] == RawOf(sent, rcv.readSeq + k)
  }

  /** The receiver's next count messages are due. */
  predicate NextDue(sent: seq<Message>, msgs: seq<S.OutMsg>, rcv: V.RecvState, epoch: nat, count: nat) {
    count >= 1 && forall n | rcv.readSeq <= n < rcv.readSeq + count :: Due(sent, msgs, rcv, epoch, n)
  }

  lemma ContentsHandedUp(sent: seq<Message>, msgs: seq<S.OutMsg>, plains: seq<S.Plain>, rcv: V.RecvState,
                         contents: seq<Content>, epoch: nat, count: nat)
    requires SentOk(sent) && RingOk(sent, rcv) && NextDue(sent, msgs, rcv, epoch, count)
    requires S.Walk(msgs, S.Cursor(0, 0), plains) == Some(S.Cursor(|msgs|, 0))
    requires AllHere(plains, epoch, contents) && forall c | c in contents :: Comes(sent, rcv, c)
    ensures AllHandedUp(sent, rcv, contents, count)
  {
    hide S.Walk, Arrive, PartialOk, V.RingInv, SentOk, Comes, HandUp, RawOf, Whole, AllHere, QueuedAs;
    assert Due(sent, msgs, rcv, epoch, rcv.readSeq) && Due(sent, msgs, rcv, epoch, rcv.readSeq + (count - 1));
    MessageHeld(sent, msgs, plains, rcv, contents, epoch, rcv.readSeq);
    var end := Arrive(rcv, contents).value;
    forall n | rcv.readSeq <= n < rcv.readSeq + count ensures Whole(sent, end, n) {
      assert Due(sent, msgs, rcv, epoch, n);
      MessageHeld(sent, msgs, plains, rcv, contents, epoch, n);
    }
    WholeHandedUp(sent, end, count);
  }

  // ---- From the datagrams on --------------------------------------------------------------------

  /**
   The datagrams that arrive, in this order: each comes apart into records the reader takes, what those of its
   epoch hold the receiver has no reason to refuse, and no number stands for two records; among them is every
   datagram of the flight, with its records of this epoch in time.
   */
  ghost predicate FlightArrives(sent: seq<Message>, rs: ReadState, accepted: set<nat>, rcv: V.RecvState,
                                arrivals: seq<seq<byte>>, flight: seq<S.Sent>)
    requires ReadInv(rs)
  {
    var recs := AllRecs(arrivals);
    && ArrivalsFit(rs, arrivals) && Unambiguous(recs)
    && (forall r | r in recs && Receivable(rs, r) && EpochOf(r) == rs.epoch :: Comes(sent, rcv, ContentOf(rs, r)))
    && forall i | 0 <= i < |flight| :: Punctual(rs, accepted, arrivals, flight[i].bytes)
  }

  ghost predicate Punctual(rs: ReadState, accepted: set<nat>, arrivals: seq<seq<byte>>, d: seq<byte>) {
    && d in arrivals
    && forall r | r in Unpack(d) && Shaped(r) && EpochOf(r) == rs.epoch :: InTime(rs, accepted, AllRecs(arrivals), r)
  }

  lemma {:induction false} PlainIn(flight: seq<S.Sent>, p: S.Plain) returns (j: nat, i: nat)
    requires p in S.AllPlains(flight)
    ensures j < |flight| && i < |flight[j].plains| && flight[j].plains[i] == p
    decreases |flight|
  {
    if p in flight[0].plains {
      j := 0;
      i :| 0 <= i < |flight[0].plains| && flight[0].plains[i] == p;
    } else {
      j, i := PlainIn(flight[1..], p);
      j := j + 1;
    }
  }

  lemma {:induction false} InAllRecs(arrivals: seq<seq<byte>>, d: seq<byte>, r: Rec)
    requires d in arrivals && r in Unpack(d)
    ensures r in AllRecs(arrivals)
    decreases |arrivals|
  {
    if d != arrivals[0] { InAllRecs(arrivals[1..], d, r); }
  }

  /** Whatever is opened was the content of a record that came. */
  lemma {:induction false} OpenedFrom(rs: ReadState, recs: seq<Rec>, c: Content) returns (r: Rec)
    requires ReadInv(rs) && AllReceivable(rs, recs) && c in OpenRecs(rs, recs).1
    ensures r in recs && Receivable(rs, r) && EpochOf(r) == rs.epoch && ContentOf(rs, r) == c
    decreases |recs|
  {
    hide ShouldDiscard, Record, Receivable, ContentOf;
    assert Receivable(rs, recs[0]);
    ReceivableShaped(rs, recs[0]);
    if EpochOf(recs[0]) != rs.epoch || ShouldDiscard(rs.window, Number(recs[0])) {
      r := OpenedFrom(rs, recs[1..], c);
    } else if c == ContentOf(rs, recs[0]) {
      r := recs[0];
    } else {
      var rs' := rs.(window := Record(rs.window, Number(recs[0])));
      SameReader(rs, rs', recs[1..]);
      r := OpenedFrom(rs', recs[1..], c);
      SameReader(rs', rs, recs[1..]);
      var k :| 0 <= k < |recs[1..]| && recs[1..][k] == r;
      SameReceiver(rs, rs', r);
    }
  }

  /** A carried datagram that comes apart does so into the records it carries. */
  lemma CarriedApart(keys: Keys, d: seq<byte>, plains: seq<S.Plain>)
    requires KeysOk(keys) && Carries(keys, d, plains) && ComesApart(d)
    ensures RecsFor(keys, Unpack(d), plains)
  {
    hide Unpack, Flatten, RecFor;
    var recs: seq<Rec> :| RecsFor(keys, recs, plains) && d == Flatten(recs);
    UnpackFlatten(recs);
  }

  lemma RecContent(keys: Keys, rs: ReadState, r: Rec, p: S.Plain)
    requires KeysOk(keys) && ReadInv(rs) && rs.aead == keys(rs.epoch) && Receivable(rs, r)
    requires RecFor(keys, r, p) && p.epoch == rs.epoch
    ensures EpochOf(r) == rs.epoch && ContentOf(rs, r) == Content(p.typ, p.payload)
  {
  }

  /** So every record of a flight that was sealed in the reader's epoch is opened. */
  lemma FlightOpened(keys: Keys, sent: seq<Message>, rs: ReadState, accepted: set<nat>, rcv: V.RecvState,
                     arrivals: seq<seq<byte>>, flight: seq<S.Sent>, p: S.Plain)
    requires KeysOk(keys) && ReadInv(rs) && !rs.closed && rs.aead == keys(rs.epoch) && Tracks(rs.window, accepted)
    requires FlightArrives(sent, rs, accepted, rcv, arrivals, flight) && AllCarry(keys, flight)
    requires p in S.AllPlains(flight) && p.epoch == rs.epoch
    ensures Content(p.typ, p.payload) in OpenStream(rs, arrivals).1
  {
    hide S.AllPlains, ComesApart, Carries, Unpack, AllRecs, OpenRecs, OpenStream, Receivable, RecFor, Tracks;
    hide Unambiguous, InTime, Comes, KeysOk;
    var j, i := PlainIn(flight, p);
    var d := flight[j].bytes;
    assert Punctual(rs, accepted, arrivals, d) && Carries(keys, d, flight[j].plains);
    assert ComesApart(d) && AllReceivable(rs, Unpack(d));
    CarriedApart(keys, d, flight[j].plains);
    var r := Unpack(d)[i];
    assert RecFor(keys, r, p) && Receivable(rs, r);
    RecContent(keys, rs, r, p);
    InAllRecs(arrivals, d, r);
    StreamIsRecs(rs, arrivals);
    FreshOpened(rs, accepted, AllRecs(arrivals), r);
  }

  /**
   Nothing of a completed flight can go missing on the way up.  Once each of its datagrams has arrived, over
   any resumptions and MTUs on the sender's side, in whatever order, with whatever repetitions, whatever else
   of the sender's in between and whatever was there before, nothing opened has been refused, and the messages
   from the receiver's counter on come up in turn, each the array that was queued.
   */
  lemma ArrivedFlightHandedUp(keys: Keys, sent: seq<Message>, snd: S.SendState, calls: seq<S.Call>, rs: ReadState,
                              accepted: set<nat>, rcv: V.RecvState, arrivals: seq<seq<byte>>, count: nat)
    requires KeysOk(keys) && SentOk(sent) && WriteInv(snd.ws) && KeysAgree(keys, snd.ws)
    requires snd.cur == S.Cursor(0, 0) && calls != [] && S.Resume(snd, calls).2.FlightDone?
    requires ReadInv(rs) && !rs.closed && rs.aead == keys(rs.epoch) && Tracks(rs.window, accepted)
    requires RingOk(sent, rcv) && NextDue(sent, snd.msgs, rcv, rs.epoch, count)
    requires FlightArrives(sent, rs, accepted, rcv, arrivals, S.Resume(snd, calls).1)
    ensures AllHandedUp(sent, rcv, OpenStream(rs, arrivals).1, count)
  {
    hide S.Resume, S.AllPlains, S.Walk, WriteInv, SentOk, RingOk, KeysOk, KeysAgree, NextDue, AllHandedUp, Comes;
    hide OpenStream, AllRecs, OpenRecs, Tracks, ReadInv, AllCarry, Receivable, ContentOf, Punctual;
    var flight := S.Resume(snd, calls).1;
    S.CompletedFlightCarriesAll(snd, calls);
    ResumeCarries(keys, snd, calls);
    var plains, contents := S.AllPlains(flight), OpenStream(rs, arrivals).1;
    forall p | p in plains && p.typ == S.RT_HANDSHAKE && p.epoch == rs.epoch
      ensures Content(p.typ, p.payload) in contents
    {
      FlightOpened(keys, sent, rs, accepted, rcv, arrivals, flight, p);
    }
    StreamIsRecs(rs, arrivals);
    forall c | c in contents ensures Comes(sent, rcv, c) {
      var r := OpenedFrom(rs, AllRecs(arrivals), c);
    }
    ContentsHandedUp(sent, snd.msgs, plains, rcv, contents, rs.epoch, count);
  }
}
