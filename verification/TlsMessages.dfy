/**
 Handshake messages over TLS records: ssl3_add_message cuts a message into records, and on the other
 side hs_buf glues record bodies together and messages are taken off its front.
 */
module TlsMessages {
  import opened Wrappers
  import opened Bytes

  const U24: nat := 0x100_0000
  const HEADER_LENGTH: nat := 4
  const RT_HANDSHAKE: byte := 22
  const RT_APPLICATION_DATA: byte := 23

  datatype Message = Message(typ: byte, body: seq<byte>) {
    /** The message as ssl3_init_message and ssl3_finish_message build it. */
    function Raw(): (s: seq<byte>)
      ensures |s| == HEADER_LENGTH + |body|
    {
      [typ] + Be(|body|, 3) + body
    }
  }

  function Concat(parts: seq<seq<byte>>): seq<byte> {
    if parts == [] then [] else parts[0] + Concat(parts[1..])
  }

  lemma {:induction false} ConcatPlus(a: seq<seq<byte>>, b: seq<seq<byte>>)
    ensures Concat(a + b) == Concat(a) + Concat(b)
    decreases |a|
  {
    if a == [] {
      assert a + b == b;
    } else {
      assert (a + b)[0] == a[0] && (a + b)[1..] == a[1..] + b;
      var front, mid, back := a[0], Concat(a[1..]), Concat(b);
      assert Concat(a + b) == front + Concat(a[1..] + b);
      ConcatPlus(a[1..], b);
      assert front + (mid + back) == front + mid + back;
    }
  }

  lemma ConcatAppend(parts: seq<seq<byte>>, last: seq<byte>)
    ensures Concat(parts + [last]) == Concat(parts) + last
  {
    ConcatPlus(parts, [last]);
    assert [last][1..] == [] && Concat([]) == [];
  }

  // ---- Sending ----------------------------------------------------------------------------------

  /** The record bodies of a message: as full as the limit allows, and at least one. */
  function Chunks(msg: seq<byte>, maxFragment: nat): seq<seq<byte>>
    requires maxFragment >= 1
    decreases |msg|
  {
    if |msg| <= maxFragment then [msg] else [msg[..maxFragment]] + Chunks(msg[maxFragment..], maxFragment)
  }

  lemma {:induction false} ChunksJoin(msg: seq<byte>, maxFragment: nat)
    requires maxFragment >= 1
    ensures Concat(Chunks(msg, maxFragment)) == msg
    ensures forall k | 0 <= k < |Chunks(msg, maxFragment)| :: |Chunks(msg, maxFragment)[k]| <= maxFragment
    ensures forall k | 0 <= k < |Chunks(msg, maxFragment)| - 1 :: |Chunks(msg, maxFragment)[k]| == maxFragment
    ensures msg != [] ==> forall k | 0 <= k < |Chunks(msg, maxFragment)| :: Chunks(msg, maxFragment)[k] != []
    decreases |msg|
  {
    if |msg| <= maxFragment {
      assert [msg][1..] == [] && Concat([]) == [];
    } else {
      ChunksJoin(msg[maxFragment..], maxFragment);
      assert Chunks(msg, maxFragment)[1..] == Chunks(msg[maxFragment..], maxFragment);
    }
  }

  /** ssl3_add_message: the bodies handed to add_record_to_flight, which may refuse one (seals(k) false). */
  method AddMessage(msg: seq<byte>, maxFragment: nat, seals: nat -> bool) returns (ok: bool, bodies: seq<seq<byte>>)
    requires maxFragment >= 1
    ensures bodies <= Chunks(msg, maxFragment) && (ok <==> bodies == Chunks(msg, maxFragment))
    ensures ok <==> forall k: nat | k < |Chunks(msg, maxFragment)| :: seals(k)
  {
    var rest := msg;
    bodies := [];
    while true
      invariant Chunks(msg, maxFragment) == bodies + Chunks(rest, maxFragment)
      invariant forall k: nat | k < |bodies| :: seals(k)
      decreases |rest|
    {
      var n := if |rest| < maxFragment then |rest| else maxFragment;
      var chunk := rest[..n];
      assert |rest| <= maxFragment ==> chunk == rest;
      rest := rest[n..];
      if !seals(|bodies|) {
        return false, bodies;
      }
      bodies := bodies + [chunk];
      if rest == [] {
        break;
      }
    }
    return true, bodies;
  }

  // ---- Receiving --------------------------------------------------------------------------------

  datatype Parsed = Need(bytes: nat) | Found(typ: byte, raw: seq<byte>)

  /** parse_message on the contents of hs_buf. */
  function ParseMessage(buf: seq<byte>): (p: Parsed)
    ensures p.Found? ==> HEADER_LENGTH <= |p.raw| && p.raw <= buf
  {
    if |buf| < HEADER_LENGTH then Need(HEADER_LENGTH)
    else
      var len := FromBe(buf[1..4]);
      if |buf| < HEADER_LENGTH + len then Need(HEADER_LENGTH + len)
      else Found(buf[0], buf[..HEADER_LENGTH + len])
  }

  /** A whole message at the front is found, whatever follows; a strict prefix of one is not. */
  lemma ParseOfRaw(m: Message, rest: seq<byte>)
    requires |m.body| < U24
    ensures ParseMessage(m.Raw() + rest) == Found(m.typ, m.Raw())
  {
    var s := m.Raw() + rest;
    assert Pow256(3) == U24;
    FromBeOfBe(|m.body|, 3);
    assert s[1..4] == Be(|m.body|, 3);
    assert s[..HEADER_LENGTH + |m.body|] == m.Raw();
  }

  lemma ParseOfPart(m: Message, part: seq<byte>)
    requires |m.body| < U24 && part <= m.Raw() && |part| < |m.Raw()|
    ensures ParseMessage(part).Need?
    ensures |part| < ParseMessage(part).bytes <= |m.Raw()|
    ensures ParseMessage(part).bytes == if |part| < HEADER_LENGTH then HEADER_LENGTH else |m.Raw()|
  {
    if |part| >= HEADER_LENGTH {
      assert Pow256(3) == U24;
      FromBeOfBe(|m.body|, 3);
      assert part[1..4] == m.Raw()[1..4] == Be(|m.body|, 3);
    }
  }

  /** What was found is a message with its header. */
  lemma FoundIsRaw(buf: seq<byte>)
    requires ParseMessage(buf).Found?
    ensures var p := ParseMessage(buf);
            && |p.raw| - HEADER_LENGTH < U24
            && p.raw == Message(p.typ, p.raw[HEADER_LENGTH..]).Raw()
  {
    var p := ParseMessage(buf);
    assert Pow256(3) == U24;
    BeOfFromBe(buf[1..4]);
    assert p.raw == [buf[0]] + buf[1..4] + p.raw[4..];
  }

  /** hs_buf (absent when released), has_message, and whether the handshake is still on. */
  datatype State = State(buf: Option<seq<byte>>, hasMessage: bool, inInit: bool)

  function Held(st: State): seq<byte> {
    if st.buf.Some? then st.buf.value else []
  }

  /** tls_can_accept_handshake_data, with the limit on message lengths. */
  predicate CanAccept(st: State, maxMessageLen: nat) {
    ParseMessage(Held(st)).Need? && ParseMessage(Held(st)).bytes <= HEADER_LENGTH + maxMessageLen
  }

  datatype OpenResult = Success | ApplicationDataInstead | UnexpectedRecord | NotAccepted

  /**
   ssl3_open_handshake on a record of the given type; no record is even decrypted while a complete
   message waits or the one being collected is too long.
   */
  function Open(st: State, typ: byte, body: seq<byte>, peer: Peer): (State, OpenResult) {
    var st' := st.(buf := Some(Held(st)));
    if !CanAccept(st, peer.maxMessageLen) then (st', NotAccepted)
    else if !peer.server && typ == RT_APPLICATION_DATA && peer.nullCipher then (st', ApplicationDataInstead)
    else if typ != RT_HANDSHAKE then (st', UnexpectedRecord)
    else (st.(buf := Some(Held(st) + body)), Success)
  }

  /** What else opening a record depends on. */
  datatype Peer = Peer(server: bool, nullCipher: bool, maxMessageLen: nat)

  /** However a peer cuts its messages, no more is buffered than one message of the allowed length and one record. */
  lemma BufferBounded(st: State, typ: byte, body: seq<byte>, peer: Peer)
    requires Open(st, typ, body, peer).1.Success?
    ensures |Held(Open(st, typ, body, peer).0)| < HEADER_LENGTH + peer.maxMessageLen + |body|
  {
    assert |Held(st)| < ParseMessage(Held(st)).bytes;
  }

  /** ssl3_next_message. */
  function Next(st: State): State
    requires ParseMessage(Held(st)).Found?
  {
    var rest := Held(st)[|ParseMessage(Held(st)).raw|..];
    State(if !st.inInit && rest == [] then None else Some(rest), false, st.inInit)
  }

  /** tls_has_unprocessed_handshake_data. */
  predicate HasUnprocessed(st: State) {
    var current := if st.hasMessage && ParseMessage(Held(st)).Found? then |ParseMessage(Held(st)).raw| else 0;
    |Held(st)| > current
  }

  class MessageBuffer {
    var hsBuf: Option<seq<byte>>
    var hasMessage: bool
    var inInit: bool

    function Abs(): State
      reads this
    {
      State(hsBuf, hasMessage, inInit)
    }

    constructor ()
      ensures Abs() == State(None, false, true)
    {
      hsBuf, hasMessage, inInit := None, false, true;
    }

    /** parse_message. */
    method Parse() returns (p: Parsed)
      ensures p == ParseMessage(Held(Abs()))
    {
      if hsBuf.None? || |hsBuf.value| < HEADER_LENGTH {
        return Need(HEADER_LENGTH);
      }
      var len := FromBe(hsBuf.value[1..4]);
      if |hsBuf.value| - HEADER_LENGTH < len {
        return Need(HEADER_LENGTH + len);
      }
      return Found(hsBuf.value[0], hsBuf.value[..HEADER_LENGTH + len]);
    }

    /** tls_can_accept_handshake_data. */
    method MayAccept(maxMessageLen: nat) returns (ok: bool)
      ensures ok == CanAccept(Abs(), maxMessageLen)
    {
      var p := Parse();
      if p.Found? {
        return false;
      }
      return p.bytes <= HEADER_LENGTH + maxMessageLen;
    }

    /** ssl3_open_handshake on a record of the given type. */
    method OpenRecord(typ: byte, body: seq<byte>, peer: Peer) returns (result: OpenResult)
      modifies this`hsBuf
      ensures (Abs(), result) == Open(old(Abs()), typ, body, peer)
    {
      if hsBuf.None? {
        hsBuf := Some([]);
      }
      var ok := MayAccept(peer.maxMessageLen);
      if !ok {
        return NotAccepted;
      }
      if !peer.server && typ == RT_APPLICATION_DATA && peer.nullCipher {
        return ApplicationDataInstead;
      }
      if typ != RT_HANDSHAKE {
        return UnexpectedRecord;
      }
      hsBuf := Some(hsBuf.value + body);
      return Success;
    }

    /** ssl3_get_message. */
    method GetMessage() returns (p: Parsed)
      modifies this`hasMessage
      ensures p == ParseMessage(Held(old(Abs())))
      ensures Abs() == old(Abs()).(hasMessage := old(hasMessage) || p.Found?)
    {
      p := Parse();
      if p.Found? && !hasMessage {
        hasMessage := true;
      }
    }

    /** ssl3_next_message. */
    method NextMessage()
      requires ParseMessage(Held(Abs())).Found?
      modifies this
      ensures Abs() == Next(old(Abs()))
    {
      var p := GetMessage();
      hsBuf := Some(hsBuf.value[|p.raw|..]);
      hasMessage := false;
      if !inInit && hsBuf.value == [] {
        hsBuf := None;
      }
    }

    /** tls_has_unprocessed_handshake_data. */
    method Unprocessed() returns (b: bool)
      ensures b == HasUnprocessed(Abs())
    {
      var msgLen := 0;
      if hasMessage {
        var p := Parse();
        if p.Found? {
          msgLen := |p.raw|;
        }
      }
      return hsBuf.Some? && |hsBuf.value| > msgLen;
    }
  }

  // ---- Whole connections ------------------------------------------------------------------------

  /** The receiver, the handshake record bodies it has been given, and the messages it handed up. */
  datatype Run = Run(st: State, bodies: seq<seq<byte>>, delivered: seq<seq<byte>>)

  datatype Step = Receive(typ: byte, body: seq<byte>, peer: Peer)
                | Get | Take | HandshakeOver

  predicate Enabled(run: Run, step: Step) {
    && (step.Take? ==> ParseMessage(Held(run.st)).Found?)
    && (step.HandshakeOver? ==> !run.st.hasMessage)
  }

  function RunNext(run: Run, step: Step): Run
    requires Enabled(run, step)
  {
    match step
    case Receive(typ, body, peer) =>
      var (st', result) := Open(run.st, typ, body, peer);
      run.(st := st', bodies := if result.Success? then run.bodies + [body] else run.bodies)
    case Get => run.(st := run.st.(hasMessage := run.st.hasMessage || ParseMessage(Held(run.st)).Found?))
    case Take =>
      run.(st := Next(run.st), delivered := run.delivered + [ParseMessage(Held(run.st)).raw])
    case HandshakeOver => run.(st := State(if Held(run.st) == [] then None else run.st.buf, false, false))
  }

  predicate IsRun(run: seq<Run>, steps: seq<Step>) {
    && |run| == |steps| + 1
    && run[0] == Run(State(None, false, true), [], [])
    && forall i | 0 <= i < |steps| :: Enabled(run[i], steps[i]) && run[i + 1] == RunNext(run[i], steps[i])
  }

  /** Each item is a message with its header. */
  ghost predicate Whole(raws: seq<seq<byte>>) {
    forall k | 0 <= k < |raws| :: IsMessage(raws[k])
  }

  ghost predicate IsMessage(raw: seq<byte>) {
    exists m: Message :: |m.body| < U24 && raw == m.Raw()
  }

  ghost predicate Conserved(run: Run) {
    Concat(run.delivered) + Held(run.st) == Concat(run.bodies) && Whole(run.delivered)
  }

  lemma TakeConserves(run: Run)
    requires Conserved(run) && ParseMessage(Held(run.st)).Found?
    ensures Conserved(RunNext(run, Take))
  {
    var buf := Held(run.st);
    var raw := ParseMessage(buf).raw;
    var rest := buf[|raw|..];
    FoundIsRaw(buf);
    hide ParseMessage;
    hide Concat;
    ConcatAppend(run.delivered, raw);
    assert buf == raw + rest;
    assert Concat(run.delivered) + (raw + rest) == Concat(run.delivered) + raw + rest;
    assert Held(RunNext(run, Take).st) == rest;
    WholeAppend(run.delivered, Message(ParseMessage(buf).typ, raw[HEADER_LENGTH..]));
  }

  lemma WholeAppend(raws: seq<seq<byte>>, m: Message)
    requires Whole(raws) && |m.body| < U24
    ensures Whole(raws + [m.Raw()])
  {
    assert IsMessage(m.Raw());
  }

  lemma ReceiveConserves(run: Run, typ: byte, body: seq<byte>, peer: Peer)
    requires Conserved(run)
    ensures Conserved(RunNext(run, Receive(typ, body, peer)))
  {
    hide Concat;
    hide CanAccept;
    hide Whole;
    ConcatAppend(run.bodies, body);
    assert Concat(run.delivered) + (Held(run.st) + body) == Concat(run.delivered) + Held(run.st) + body;
  }

  lemma StepConserves(run: Run, step: Step)
    requires Enabled(run, step) && Conserved(run)
    ensures Conserved(RunNext(run, step))
  {
    hide ParseMessage;
    hide Whole;
    match step
    case Receive(typ, body, peer) => ReceiveConserves(run, typ, body, peer);
    case Take => TakeConserves(run);
    case _ =>
  }

  /** The messages handed up and then what is still in hs_buf are the record bodies received, in order. */
  lemma {:induction false} RunConserves(run: seq<Run>, steps: seq<Step>, n: nat)
    requires IsRun(run, steps) && n <= |steps|
    ensures Concat(run[n].delivered) + Held(run[n].st) == Concat(run[n].bodies) && Whole(run[n].delivered)
  {
    if n > 0 {
      RunConserves(run, steps, n - 1);
      StepConserves(run[n - 1], steps[n - 1]);
    }
  }

  /** The message that ssl3_get_message has shown and that has not been taken yet. */
  function Shown(st: State): seq<seq<byte>> {
    if st.hasMessage && ParseMessage(Held(st)).Found? then [ParseMessage(Held(st)).raw] else []
  }

  lemma {:induction false} ShownIsThere(run: seq<Run>, steps: seq<Step>, n: nat)
    requires IsRun(run, steps) && n <= |steps|
    ensures run[n].st.hasMessage ==> ParseMessage(Held(run[n].st)).Found?
  {
    if n > 0 {
      ShownIsThere(run, steps, n - 1);
      assert run[n] == RunNext(run[n - 1], steps[n - 1]);
      hide ParseMessage;
    }
  }

  /**
   Handshake data counts as unprocessed if and only if the record bodies received are more than the messages
   handed up and the one being shown.
   */
  lemma UnprocessedExact(run: seq<Run>, steps: seq<Step>, n: nat)
    requires IsRun(run, steps) && n <= |steps|
    ensures HasUnprocessed(run[n].st) <==> Concat(run[n].bodies) != Concat(run[n].delivered + Shown(run[n].st))
  {
    RunConserves(run, steps, n);
    ShownIsThere(run, steps, n);
    var d, buf := run[n].delivered, Held(run[n].st);
    if Shown(run[n].st) == [] {
      assert d + [] == d && Concat(d) + [] == Concat(d);
      assert |Concat(d) + buf| == |Concat(d)| + |buf|;
    } else {
      var raw := ParseMessage(buf).raw;
      ConcatAppend(d, raw);
      FoundIsRaw(buf);
      assert buf == raw + buf[|raw|..];
      assert |Concat(d) + buf| == |Concat(d) + raw| + |buf[|raw|..]|;
      if |buf| == |raw| { assert buf == raw; }
    }
  }

  /**
   While a message is arriving, more is accepted until it is whole, if its length is allowed; a longer one is
   refused as soon as its header is there.
   */
  lemma AcceptsExactly(st: State, m: Message, after: seq<byte>, maxLen: nat)
    requires |m.body| < U24 && Held(st) <= m.Raw() + after
    ensures CanAccept(st, maxLen)
            <==> |Held(st)| < HEADER_LENGTH || (|Held(st)| < |m.Raw()| && |m.body| <= maxLen)
  {
    if |Held(st)| >= |m.Raw()| {
      assert Held(st) == m.Raw() + Held(st)[|m.Raw()|..];
      ParseOfRaw(m, Held(st)[|m.Raw()|..]);
    } else {
      assert Held(st) == m.Raw()[..|Held(st)|];
      ParseOfPart(m, Held(st));
    }
  }

  /** What a sender writes: its messages, each cut to the limit in force at the time. */
  function Records(msgs: seq<Message>, limits: seq<nat>): seq<seq<byte>>
    requires |limits| == |msgs| && forall k | 0 <= k < |limits| :: limits[k] >= 1
  {
    if msgs == [] then [] else Chunks(msgs[0].Raw(), limits[0]) + Records(msgs[1..], limits[1..])
  }

  function Raws(msgs: seq<Message>): seq<seq<byte>> {
    if msgs == [] then [] else [msgs[0].Raw()] + Raws(msgs[1..])
  }

  lemma {:induction false} RecordsJoin(msgs: seq<Message>, limits: seq<nat>)
    requires |limits| == |msgs| && forall k | 0 <= k < |limits| :: limits[k] >= 1
    ensures Concat(Records(msgs, limits)) == Concat(Raws(msgs))
  {
    if msgs != [] {
      RecordsJoin(msgs[1..], limits[1..]);
      ChunksJoin(msgs[0].Raw(), limits[0]);
      ConcatPlus(Chunks(msgs[0].Raw(), limits[0]), Records(msgs[1..], limits[1..]));
    }
  }

  lemma FirstMessage(m: Message, after: seq<byte>, msgs: seq<Message>)
    requires |m.body| < U24 && forall k | 0 <= k < |msgs| :: |msgs[k].body| < U24
    requires m.Raw() + after == Concat(Raws(msgs))
    ensures msgs != [] && m.Raw() == msgs[0].Raw() && after == Concat(Raws(msgs[1..]))
  {
    ParseOfRaw(m, after);
    assert msgs != [];
    ParseOfRaw(msgs[0], Concat(Raws(msgs[1..])));
    assert after == (m.Raw() + after)[|m.Raw()|..];
  }

  lemma Regroup(a: seq<byte>, b: seq<byte>, c: seq<byte>, d: seq<byte>)
    ensures a + b + c + d == a + (b + c + d)
  {
  }

  /** A whole message at the front of a stream is its first one, and what follows is the stream of the others. */
  lemma FirstWhole(raws: seq<seq<byte>>, rest: seq<byte>, msgs: seq<Message>, tail: seq<byte>)
    requires raws != [] && Whole(raws) && forall k | 0 <= k < |msgs| :: |msgs[k].body| < U24
    requires Concat(raws) + rest + tail == Concat(Raws(msgs))
    ensures msgs != [] && raws[0] == msgs[0].Raw() && Whole(raws[1..])
    ensures Concat(raws[1..]) + rest + tail == Concat(Raws(msgs[1..]))
  {
    hide Message.Raw;
    assert IsMessage(raws[0]);
    var m: Message :| |m.body| < U24 && raws[0] == m.Raw();
    Regroup(raws[0], Concat(raws[1..]), rest, tail);
    FirstMessage(m, Concat(raws[1..]) + rest + tail, msgs);
  }

  /** Messages cannot be taken apart in two ways: whole ones at the front of a stream are its first ones. */
  lemma {:induction false} UniqueParse(raws: seq<seq<byte>>, rest: seq<byte>, msgs: seq<Message>, tail: seq<byte>)
    requires Whole(raws) && forall k | 0 <= k < |msgs| :: |msgs[k].body| < U24
    requires Concat(raws) + rest + tail == Concat(Raws(msgs))
    ensures |raws| <= |msgs| && raws == Raws(msgs[..|raws|])
    ensures rest + tail == Concat(Raws(msgs[|raws|..]))
    decreases |raws|
  {
    if raws == [] {
      assert msgs[..0] == [] && msgs[0..] == msgs && [] + rest + tail == rest + tail;
    } else {
      FirstWhole(raws, rest, msgs, tail);
      hide Concat, Whole, Message.Raw;
      UniqueParse(raws[1..], rest, msgs[1..], tail);
      assert msgs[..|raws|][1..] == msgs[1..][..|raws| - 1];
      assert msgs[|raws|..] == msgs[1..][|raws| - 1..];
    }
  }

  /**
   When the record bodies received are the first ones the peer wrote, whatever its fragment limits:
   the messages handed up are the first ones the peer sent, octet for octet; and once every record
   has arrived, a message still to be handed up is complete.
   */
  lemma MessagesRecovered(run: seq<Run>, steps: seq<Step>, n: nat, msgs: seq<Message>, limits: seq<nat>)
    requires IsRun(run, steps) && n <= |steps|
    requires |limits| == |msgs| && (forall k | 0 <= k < |limits| :: limits[k] >= 1)
    requires forall k | 0 <= k < |msgs| :: |msgs[k].body| < U24
    requires run[n].bodies <= Records(msgs, limits)
    ensures |run[n].delivered| <= |msgs| && run[n].delivered == Raws(msgs[..|run[n].delivered|])
    ensures run[n].bodies == Records(msgs, limits) && |run[n].delivered| < |msgs| ==>
              ParseMessage(Held(run[n].st)) == Found(msgs[|run[n].delivered|].typ, msgs[|run[n].delivered|].Raw())
  {
    RunConserves(run, steps, n);
    RecordsJoin(msgs, limits);
    var all, got := Records(msgs, limits), run[n].bodies;
    var d, buf := run[n].delivered, Held(run[n].st);
    ConcatPlus(got, all[|got|..]);
    assert got + all[|got|..] == all;
    var tail := Concat(all[|got|..]);
    UniqueParse(d, buf, msgs, tail);
    if got == all && |d| < |msgs| {
      assert tail == [] && buf + tail == buf;
      ParseOfRaw(msgs[|d|], Concat(Raws(msgs[|d| + 1..])));
      assert msgs[|d|..][1..] == msgs[|d| + 1..];
    }
  }
}
