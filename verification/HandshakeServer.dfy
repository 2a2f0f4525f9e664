/**
 The server's handshake state machine up to TLS 1.2, and every run of it under the blocking driver.
 */
module HandshakeServer {
  import opened Handshake
  import opened Wrappers

  datatype State =
    | StartAccept | ReadClientHello | SelectCertificate | Tls13 | SelectParameters | SendServerHello
    | SendServerCertificate | SendServerKeyExchange | SendServerHelloDone | ReadClientCertificate
    | VerifyClientCertificate | ReadClientKeyExchange | ReadClientCertificateVerify | ReadChangeCipherSpec
    | ProcessChangeCipherSpec | ReadNextProto | ReadChannelId | ReadClientFinished | SendServerFinished
    | FinishServerHandshake | Done

  /** What happens that the other side, or the rest of the connection, takes notice of. */
  datatype Event =
    | GotClientHello | SentServerHello | SentCertificate | SentCertificateStatus | SentServerKeyExchange
    | SentCertificateRequest | SentServerHelloDone | GotCertificate | GotEmptyCertificate | CheckedCertificate
    | GotClientKeyExchange | CheckedCertificateVerify | GotCcs | ChangedReadKey | GotNextProto | GotChannelId
    | VerifiedFinished | SentSessionTicket | SentCcs | ChangedWriteKey | SentFinished

  /**
   What the handshake goes by; ske: there are ServerKeyExchange parameters; certs: how many certificates the
   session's chain has; peerKey: peer_pubkey is set; ssl3: the version is SSL 3.0.
   */
  datatype Facts = Facts(resumed: bool, usesCert: bool, statusExpected: bool, ticketExpected: bool, nextProto: bool,
                         channelId: bool, certRequest: bool, ske: bool, certs: nat, peerKey: bool, ssl3: bool)

  const NOTHING_YET := Facts(false, false, false, false, false, false, false, false, 0, false, false)

  /** A certificate of a received chain: whether it is empty, and whether a public key can be parsed out of it. */
  datatype Cert = Cert(empty: bool, keyParses: bool)

  /** What ssl_parse_cert_chain puts out: the length of the chain, and whether there is a public key. */
  datatype Chain = Chain(certs: nat, key: bool)

  /** What selecting the parameters settles; verifyPeer: the configuration asks for a client certificate. */
  datatype Settled = Settled(resumed: bool, usesCert: bool, statusExpected: bool, ticketExpected: bool,
                             nextProto: bool, channelId: bool, verifyPeer: bool, ssl3: bool)

  datatype Verdict = Valid | Invalid | Retry

  /**
   What one call of a do_ function finds outside the model: what verifying the certificate, a signature or
   the Finished message comes to, whether all else that can fail in it succeeds, whether a callback asks to
   be called again, and the choices named.
   */
  datatype Choice = Choice(ok: bool, retry: bool, verdict: Verdict, signatureOk: bool, finishedMatches: bool,
                           tls13: bool, settled: Settled, keepChannelId: bool, ske: bool, chain: seq<Cert>,
                           certRequired: bool, recorded: bool)

  /** SSL_HANDSHAKE, with the messages read so far and not yet consumed. */
  datatype Hs = Hs(state: State, inbox: seq<MsgType>, facts: Facts)

  /** The message an event is the taking of. */
  function Message(e: Event): seq<MsgType> {
    if e.GotClientHello? then [ClientHello]
    else if e.GotCertificate? then [Certificate]
    else if e.GotEmptyCertificate? then [Certificate]
    else if e.GotClientKeyExchange? then [ClientKeyExchange]
    else if e.CheckedCertificateVerify? then [CertificateVerify]
    else if e.GotNextProto? then [NextProto]
    else if e.GotChannelId? then [ChannelId]
    else if e.VerifiedFinished? then [Finished]
    else []
  }

  // ---- The do_ functions ------------------------------------------------------------------------

  function To(hs: Hs, state: State, events: seq<Event>): Outcome<Hs, Event> {
    Outcome(hs.(state := state), Ok, [events])
  }

  function Stay(hs: Hs, wait: Wait): Outcome<Hs, Event> {
    Outcome(hs, wait, [])
  }

  /** next_message. */
  function Consume(hs: Hs): Hs {
    hs.(inbox := Rest(hs.inbox))
  }

  function If(b: bool, e: Event): seq<Event> {
    if b then [e] else []
  }

  function AfterStartAccept(hs: Hs, c: Choice): (out: Outcome<Hs, Event>)
    ensures Takes(hs.inbox, out.hs.inbox, out.did, Message)
  {
    Outcome(hs.(state := ReadClientHello), Ok, [])
  }

  /** The early callback may ask to be called again, and so may a handoff. */
  function AfterReadClientHello(hs: Hs, c: Choice): (out: Outcome<Hs, Event>)
    ensures Takes(hs.inbox, out.hs.inbox, out.did, Message)
  {
    if hs.inbox == [] then Stay(hs, ReadMessage)
    else if !Shows(hs.inbox, ClientHello) then Stay(hs, Error)
    else if c.retry then Stay(hs, Paused)
    else if !c.ok then Stay(hs, Error)
    else Outcome(hs.(state := SelectCertificate), Ok, [])
  }

  function AfterSelectCertificate(hs: Hs, c: Choice): (out: Outcome<Hs, Event>)
    ensures Takes(hs.inbox, out.hs.inbox, out.did, Message)
  {
    if hs.inbox == [] then Stay(hs, ReadMessage)
    else if c.retry then Stay(hs, Paused)
    else if !c.ok then Stay(hs, Error)
    else Outcome(hs.(state := if c.tls13 then Tls13 else SelectParameters), Ok, [])
  }

  /** A session or a ticket may be pending.  Only a full handshake with certificates may ask for the client's. */
  function AfterSelectParameters(hs: Hs, c: Choice): (out: Outcome<Hs, Event>)
    ensures Shows(hs.inbox, ClientHello) ==> Takes(hs.inbox, out.hs.inbox, out.did, Message)
  {
    if hs.inbox == [] then Stay(hs, ReadMessage)
    else if c.retry then Stay(hs, Paused)
    else if !c.ok then Stay(hs, Error)
    else
      var s := c.settled;
      var facts := hs.facts.(resumed := s.resumed, usesCert := s.usesCert, statusExpected := s.statusExpected,
                             ticketExpected := s.ticketExpected, nextProto := s.nextProto, channelId := s.channelId,
                             certRequest := !s.resumed && s.verifyPeer && s.usesCert, ssl3 := s.ssl3);
      To(Consume(hs).(facts := facts), SendServerHello, [GotClientHello])
  }

  function AfterSendServerHello(hs: Hs, c: Choice): (out: Outcome<Hs, Event>)
    ensures Takes(hs.inbox, out.hs.inbox, out.did, Message)
  {
    if !c.ok then Stay(hs, Error)
    else
      To(hs.(facts := hs.facts.(channelId := hs.facts.channelId && c.keepChannelId)),
         if hs.facts.resumed then SendServerFinished else SendServerCertificate, [SentServerHello])
  }

  /** The ServerKeyExchange parameters are made here as well. */
  function AfterSendServerCertificate(hs: Hs, c: Choice): (out: Outcome<Hs, Event>)
    ensures Takes(hs.inbox, out.hs.inbox, out.did, Message)
  {
    if !c.ok then Stay(hs, Error)
    else
      To(hs.(facts := hs.facts.(ske := c.ske)), SendServerKeyExchange, OwnCertificate(hs.facts))
  }

  function OwnCertificate(f: Facts): seq<Event> {
    if !f.usesCert then [] else if f.statusExpected then [SentCertificate, SentCertificateStatus] else [SentCertificate]
  }

  function AfterSendServerKeyExchange(hs: Hs, c: Choice): (out: Outcome<Hs, Event>)
    ensures Takes(hs.inbox, out.hs.inbox, out.did, Message)
  {
    if !hs.facts.ske then To(hs, SendServerHelloDone, [])
    else if c.retry && hs.facts.usesCert then Stay(hs, Paused)
    else if !c.ok then Stay(hs, Error)
    else To(hs, SendServerHelloDone, [SentServerKeyExchange])
  }

  function AfterSendServerHelloDone(hs: Hs, c: Choice): (out: Outcome<Hs, Event>)
    ensures Takes(hs.inbox, out.hs.inbox, out.did, Message)
  {
    if !c.ok then Stay(hs, Error)
    else
      Outcome(hs.(state := ReadClientCertificate), Flush,
              [If(hs.facts.certRequest, SentCertificateRequest), [SentServerHelloDone]])
  }

  /** A chain is refused for an empty certificate or a leaf without a key; the leaf's key is the peer's. */
  function ParsedChain(chain: seq<Cert>): (parsed: Option<Chain>)
    ensures parsed.Some? ==> (parsed.value.key <==> parsed.value.certs > 0)
  {
    if chain == [] then Some(Chain(0, false))
    else if !chain[0].keyParses || exists k :: 0 <= k < |chain| && chain[k].empty then None
    else Some(Chain(|chain|, true))
  }

  /** In SSL 3.0 a client without a certificate leaves the message out. */
  function AfterReadClientCertificate(hs: Hs, c: Choice): (out: Outcome<Hs, Event>)
    ensures Takes(hs.inbox, out.hs.inbox, out.did, Message)
  {
    if !hs.facts.certRequest then To(hs, VerifyClientCertificate, [])
    else if hs.inbox == [] then Stay(hs, ReadMessage)
    else if !Shows(hs.inbox, Certificate) then
      if hs.facts.ssl3 && Shows(hs.inbox, ClientKeyExchange) && !c.certRequired then To(hs, VerifyClientCertificate, [])
      else Stay(hs, Error)
    else if ParsedChain(c.chain).None? || !c.ok then Stay(hs, Error)
    else
      var parsed := ParsedChain(c.chain).value;
      if parsed.certs == 0 && (hs.facts.ssl3 || c.certRequired) then Stay(hs, Error)
      else
        To(Consume(hs).(facts := hs.facts.(certs := parsed.certs, peerKey := parsed.key)), VerifyClientCertificate,
           [if parsed.certs == 0 then GotEmptyCertificate else GotCertificate])
  }

  function AfterVerifyClientCertificate(hs: Hs, c: Choice): (out: Outcome<Hs, Event>)
    ensures Takes(hs.inbox, out.hs.inbox, out.did, Message)
  {
    if hs.facts.certs == 0 then To(hs, ReadClientKeyExchange, [])
    else
      match c.verdict
      case Valid => To(hs, ReadClientKeyExchange, [CheckedCertificate])
      case Invalid => Stay(hs, Error)
      case Retry => Stay(hs, Paused)
  }

  function AfterReadClientKeyExchange(hs: Hs, c: Choice): (out: Outcome<Hs, Event>)
    ensures Takes(hs.inbox, out.hs.inbox, out.did, Message)
  {
    if hs.inbox == [] then Stay(hs, ReadMessage)
    else if !Shows(hs.inbox, ClientKeyExchange) then Stay(hs, Error)
    else if c.retry then Stay(hs, Paused)
    else if !c.ok then Stay(hs, Error)
    else To(Consume(hs), ReadClientCertificateVerify, [GotClientKeyExchange])
  }

  function AfterReadClientCertificateVerify(hs: Hs, c: Choice): (out: Outcome<Hs, Event>)
    ensures Takes(hs.inbox, out.hs.inbox, out.did, Message)
  {
    if !hs.facts.peerKey then To(hs, State.ReadChangeCipherSpec, [])
    else if hs.inbox == [] then Stay(hs, ReadMessage)
    else if !Shows(hs.inbox, CertificateVerify) || !c.ok || !c.signatureOk then Stay(hs, Error)
    else To(Consume(hs), State.ReadChangeCipherSpec, [CheckedCertificateVerify])
  }

  function AfterReadChangeCipherSpec(hs: Hs, c: Choice): (out: Outcome<Hs, Event>)
    ensures Takes(hs.inbox, out.hs.inbox, out.did, Message)
  {
    Outcome(hs.(state := ProcessChangeCipherSpec), Wait.ReadChangeCipherSpec, [])
  }

  function AfterProcessChangeCipherSpec(hs: Hs, c: Choice): (out: Outcome<Hs, Event>)
    ensures Takes(hs.inbox, out.hs.inbox, out.did, Message)
  {
    if !c.ok then Stay(hs, Error) else To(hs, ReadNextProto, [ChangedReadKey])
  }

  function AfterReadNextProto(hs: Hs, c: Choice): (out: Outcome<Hs, Event>)
    ensures Takes(hs.inbox, out.hs.inbox, out.did, Message)
  {
    if !hs.facts.nextProto then To(hs, ReadChannelId, [])
    else if hs.inbox == [] then Stay(hs, ReadMessage)
    else if !Shows(hs.inbox, NextProto) || !c.ok then Stay(hs, Error)
    else To(Consume(hs), ReadChannelId, [GotNextProto])
  }

  function AfterReadChannelId(hs: Hs, c: Choice): (out: Outcome<Hs, Event>)
    ensures Takes(hs.inbox, out.hs.inbox, out.did, Message)
  {
    if !hs.facts.channelId then To(hs, ReadClientFinished, [])
    else if hs.inbox == [] then Stay(hs, ReadMessage)
    else if !Shows(hs.inbox, ChannelId) || !c.ok || !c.signatureOk then Stay(hs, Error)
    else To(Consume(hs), ReadClientFinished, [GotChannelId])
  }

  /** Recording the hashes for Channel ID can fail after the state has moved on. */
  function AfterReadClientFinished(hs: Hs, c: Choice): (out: Outcome<Hs, Event>)
    ensures Takes(hs.inbox, out.hs.inbox, out.did, Message)
  {
    if hs.inbox == [] then Stay(hs, ReadMessage)
    else if !Shows(hs.inbox, Finished) || !c.ok || !c.finishedMatches then Stay(hs, Error)
    else
      To(Consume(hs), if hs.facts.resumed then FinishServerHandshake else SendServerFinished, [VerifiedFinished])
      .(wait := if !hs.facts.resumed && hs.facts.channelId && !c.recorded then Error else Ok)
  }

  function AfterSendServerFinished(hs: Hs, c: Choice): (out: Outcome<Hs, Event>)
    ensures Takes(hs.inbox, out.hs.inbox, out.did, Message)
  {
    if !c.ok then Stay(hs, Error)
    else
      Outcome(hs.(state := if hs.facts.resumed then State.ReadChangeCipherSpec else FinishServerHandshake), Flush,
              [If(hs.facts.ticketExpected, SentSessionTicket), [SentCcs], [ChangedWriteKey], [SentFinished]])
  }

  function AfterFinishServerHandshake(hs: Hs, c: Choice): (out: Outcome<Hs, Event>)
    ensures Takes(hs.inbox, out.hs.inbox, out.did, Message)
  {
    Outcome(hs.(state := Done), Ok, [])
  }

  /** The ClientHello stays where it is while its parameters are selected. */
  predicate HelloShown(hs: Hs) {
    hs.state.SelectCertificate? || hs.state.SelectParameters? ==> Shows(hs.inbox, ClientHello)
  }

  /** The switch of ssl_server_handshake; the TLS 1.3 machine is not part of the model. */
  function Advance(hs: Hs, c: Choice): (out: Outcome<Hs, Event>)
    ensures HelloShown(hs) ==> Takes(hs.inbox, out.hs.inbox, out.did, Message)
  {
    match hs.state
    case StartAccept => AfterStartAccept(hs, c)
    case ReadClientHello => AfterReadClientHello(hs, c)
    case SelectCertificate => AfterSelectCertificate(hs, c)
    case Tls13 => Stay(hs, Error)
    case SelectParameters => AfterSelectParameters(hs, c)
    case SendServerHello => AfterSendServerHello(hs, c)
    case SendServerCertificate => AfterSendServerCertificate(hs, c)
    case SendServerKeyExchange => AfterSendServerKeyExchange(hs, c)
    case SendServerHelloDone => AfterSendServerHelloDone(hs, c)
    case ReadClientCertificate => AfterReadClientCertificate(hs, c)
    case VerifyClientCertificate => AfterVerifyClientCertificate(hs, c)
    case ReadClientKeyExchange => AfterReadClientKeyExchange(hs, c)
    case ReadClientCertificateVerify => AfterReadClientCertificateVerify(hs, c)
    case ReadChangeCipherSpec => AfterReadChangeCipherSpec(hs, c)
    case ProcessChangeCipherSpec => AfterProcessChangeCipherSpec(hs, c)
    case ReadNextProto => AfterReadNextProto(hs, c)
    case ReadChannelId => AfterReadChannelId(hs, c)
    case ReadClientFinished => AfterReadClientFinished(hs, c)
    case SendServerFinished => AfterSendServerFinished(hs, c)
    case FinishServerHandshake => AfterFinishServerHandshake(hs, c)
    case Done => Stay(hs, Ok)
  }

  // ---- Runs -------------------------------------------------------------------------------------

  const SERVER: Side<Hs, Choice, Event> :=
    Side(Hs(StartAccept, [], NOTHING_YET), (hs, c) => Advance(hs, c), (hs: Hs) => hs.state.Done?,
         (hs: Hs) => hs.inbox, (hs: Hs, msgs: seq<MsgType>) => hs.(inbox := hs.inbox + msgs),
         GotCcs, Message)

  // ---- What the log must be ---------------------------------------------------------------------

  /** Entry n of the five made by reading the client's second flight. */
  predicate ReadEntry(f: Facts, n: int, entry: seq<Event>) {
    if n == 0 then entry == [GotCcs]
    else if n == 1 then entry == [ChangedReadKey]
    else if n == 2 then entry == If(f.nextProto, GotNextProto)
    else if n == 3 then entry == If(f.channelId, GotChannelId)
    else n == 4 && entry == [VerifiedFinished]
  }

  /** Entry n of the four made by sending Finished. */
  predicate WriteEntry(f: Facts, n: int, entry: seq<Event>) {
    if n == 0 then entry == If(f.ticketExpected, SentSessionTicket)
    else if n == 1 then entry == [SentCcs]
    else if n == 2 then entry == [ChangedWriteKey]
    else n == 3 && entry == [SentFinished]
  }

  /** What comes of asking for a client certificate, or of not asking; in SSL 3.0 no message stands for none. */
  predicate ClientCertificate(f: Facts, entry: seq<Event>) {
    entry == if f.certs > 0 then [GotCertificate] else if f.certRequest && !f.ssl3 then [GotEmptyCertificate] else []
  }

  /** Entry n of a full handshake after the ServerHello, up to the ChangeCipherSpec. */
  predicate FullEntry(f: Facts, n: int, entry: seq<Event>) {
    if n == 2 then entry == OwnCertificate(f)
    else if n == 3 then entry == If(f.ske, SentServerKeyExchange)
    else if n == 4 then entry == If(f.certRequest, SentCertificateRequest)
    else if n == 5 then entry == [SentServerHelloDone]
    else if n == 6 then ClientCertificate(f, entry)
    else if n == 7 then entry == If(f.certs > 0, CheckedCertificate)
    else if n == 8 then entry == [GotClientKeyExchange]
    else n == 9 && entry == If(f.peerKey, CheckedCertificateVerify)
  }

  predicate EntryOk(f: Facts, n: int, entry: seq<Event>) {
    if n <= 1 then entry == (if n == 0 then [GotClientHello] else [SentServerHello])
    else if f.resumed then if n <= 5 then WriteEntry(f, n - 2, entry) else ReadEntry(f, n - 6, entry)
    else if n <= 9 then FullEntry(f, n, entry)
    else if n <= 14 then ReadEntry(f, n - 10, entry)
    else WriteEntry(f, n - 15, entry)
  }

  predicate LogOk(f: Facts, log: seq<seq<Event>>) {
    forall n | 0 <= n < |log| :: EntryOk(f, n, log[n])
  }

  /** How many entries the log has on reaching a state. */
  function Entries(state: State, resumed: bool, wait: Wait): nat {
    match state
    case StartAccept => 0
    case ReadClientHello => 0
    case SelectCertificate => 0
    case Tls13 => 0
    case SelectParameters => 0
    case SendServerHello => 1
    case SendServerCertificate => 2
    case SendServerKeyExchange => 3
    case SendServerHelloDone => 4
    case ReadClientCertificate => 6
    case VerifyClientCertificate => 7
    case ReadClientKeyExchange => 8
    case ReadClientCertificateVerify => 9
    case ReadChangeCipherSpec => if resumed then 6 else 10
    case ProcessChangeCipherSpec => (if resumed then 6 else 10) + if wait == Wait.ReadChangeCipherSpec then 0 else 1
    case ReadNextProto => if resumed then 8 else 12
    case ReadChannelId => if resumed then 9 else 13
    case ReadClientFinished => if resumed then 10 else 14
    case SendServerFinished => if resumed then 2 else 15
    case FinishServerHandshake => if resumed then 11 else 19
    case Done => if resumed then 11 else 19
  }

  /** States of the full handshake alone. */
  predicate FullOnly(state: State) {
    || state.SendServerCertificate? || state.SendServerKeyExchange? || state.SendServerHelloDone?
    || state.ReadClientCertificate? || state.VerifyClientCertificate? || state.ReadClientKeyExchange?
    || state.ReadClientCertificateVerify?
  }

  /** Which facts go with how many entries. */
  predicate FactsOk(hs: Hs, n: int) {
    var f := hs.facts;
    && (n == 0 ==> f == NOTHING_YET)
    && (n <= 2 || f.resumed ==> !f.ske)
    && (n <= 6 || !f.certRequest ==> f.certs == 0)
    && (f.peerKey <==> f.certs > 0)
    && (f.certRequest ==> !f.resumed && f.usesCert)
    && (f.resumed ==> !FullOnly(hs.state))
  }

  /** The log is the one of the state reached. */
  predicate Inv(x: Config<Hs, Event>) {
    && (x.running ==> x.wait == Ok)
    && (x.wait == Wait.ReadChangeCipherSpec ==> x.hs.state.ProcessChangeCipherSpec?)
    && (!x.hs.state.Tls13? ==>
          && |x.log| == Entries(x.hs.state, x.hs.facts.resumed, x.wait)
          && FactsOk(x.hs, |x.log|) && LogOk(x.hs.facts, x.log))
  }

  // ---- Every run keeps to it ----------------------------------------------------------------------

  predicate Judged(f: Facts, n: int, did: seq<seq<Event>>) {
    && |did| <= 4
    && (|did| > 0 ==> EntryOk(f, n, did[0])) && (|did| > 1 ==> EntryOk(f, n + 1, did[1]))
    && (|did| > 2 ==> EntryOk(f, n + 2, did[2])) && (|did| > 3 ==> EntryOk(f, n + 3, did[3]))
  }

  /** The facts that change when there are n entries are not what those are judged by. */
  predicate Kept(f: Facts, g: Facts, n: int) {
    || n == 0
    || (&& g == f.(channelId := g.channelId, ske := g.ske, certs := g.certs, peerKey := g.peerKey)
        && (g.channelId == f.channelId || n == 1) && (g.ske == f.ske || n == 2)
        && ((g.certs == f.certs && g.peerKey == f.peerKey) || n == 6))
  }

  /** What is left to do at most; resumption decides the order of the last states. */
  function Rank(state: State, resumed: bool): nat {
    match state
    case StartAccept => 20
    case ReadClientHello => 19
    case SelectCertificate => 18
    case SelectParameters => 17
    case SendServerHello => 16
    case SendServerCertificate => 15
    case SendServerKeyExchange => 14
    case SendServerHelloDone => 13
    case ReadClientCertificate => 12
    case VerifyClientCertificate => 11
    case ReadClientKeyExchange => 10
    case ReadClientCertificateVerify => 9
    case ReadChangeCipherSpec => 7
    case ProcessChangeCipherSpec => 6
    case ReadNextProto => 5
    case ReadChannelId => 4
    case ReadClientFinished => 3
    case SendServerFinished => if resumed then 8 else 2
    case FinishServerHandshake => 1
    case Tls13 => 0
    case Done => 0
  }

  /** A step that changes the state goes down in rank, and the choice about resumption is made with the parameters. */
  predicate Drops(hs: Hs, out: Outcome<Hs, Event>) {
    && (out.hs.state.Done? ==> out.wait == Ok)
    && (out.hs.facts.resumed == hs.facts.resumed || hs.state.SelectParameters?)
    && (if out.hs.state == hs.state then out.wait != Ok
        else Rank(out.hs.state, out.hs.facts.resumed) < Rank(hs.state, hs.facts.resumed))
  }

  /** A step waits, without trace, or adds the entries of the state it moves to. */
  predicate Moves(hs: Hs, n: int, out: Outcome<Hs, Event>) {
    if out.hs.state == hs.state then
      out == Stay(hs, out.wait) && out.wait != Wait.ReadChangeCipherSpec
      && (hs.state.ProcessChangeCipherSpec? ==> out.wait != Ok)
    else if out.hs.state.Tls13? then out.wait != Wait.ReadChangeCipherSpec
    else
      && n + |out.did| == Entries(out.hs.state, out.hs.facts.resumed, out.wait)
      && FactsOk(out.hs, n + |out.did|) && Kept(hs.facts, out.hs.facts, n)
      && Judged(out.hs.facts, n, out.did)
      && (out.wait == Wait.ReadChangeCipherSpec ==> out.hs.state.ProcessChangeCipherSpec?)
  }

  /** The part of the invariant that a step needs. */
  predicate Here(hs: Hs, n: int) {
    n == Entries(hs.state, hs.facts.resumed, Ok) && FactsOk(hs, n)
  }

  lemma StartAcceptMoves(hs: Hs, n: int, c: Choice)
    requires Here(hs, n) && hs.state.StartAccept?
    ensures Moves(hs, n, AfterStartAccept(hs, c)) && Drops(hs, AfterStartAccept(hs, c))
  {
    hide Takes, FullEntry, WriteEntry, ReadEntry;
  }

  lemma ReadClientHelloMoves(hs: Hs, n: int, c: Choice)
    requires Here(hs, n) && hs.state.ReadClientHello?
    ensures Moves(hs, n, AfterReadClientHello(hs, c)) && Drops(hs, AfterReadClientHello(hs, c))
  {
    hide Takes, FullEntry, WriteEntry, ReadEntry, Rest, Shows;
  }

  lemma SelectCertificateMoves(hs: Hs, n: int, c: Choice)
    requires Here(hs, n) && hs.state.SelectCertificate?
    ensures Moves(hs, n, AfterSelectCertificate(hs, c)) && Drops(hs, AfterSelectCertificate(hs, c))
  {
    hide Takes, FullEntry, WriteEntry, ReadEntry, Rest, Shows;
  }

  lemma SelectParametersMoves(hs: Hs, n: int, c: Choice)
    requires Here(hs, n) && hs.state.SelectParameters?
    ensures Moves(hs, n, AfterSelectParameters(hs, c)) && Drops(hs, AfterSelectParameters(hs, c))
  {
    hide Takes, FullEntry, WriteEntry, ReadEntry, Rest, Shows;
  }

  lemma SendServerHelloMoves(hs: Hs, n: int, c: Choice)
    requires Here(hs, n) && hs.state.SendServerHello?
    ensures Moves(hs, n, AfterSendServerHello(hs, c)) && Drops(hs, AfterSendServerHello(hs, c))
  {
    hide Takes, FullEntry, WriteEntry, ReadEntry;
  }

  lemma SendServerCertificateMoves(hs: Hs, n: int, c: Choice)
    requires Here(hs, n) && hs.state.SendServerCertificate?
    ensures Moves(hs, n, AfterSendServerCertificate(hs, c)) && Drops(hs, AfterSendServerCertificate(hs, c))
  {
    hide Takes;
    assert OwnCertificate(hs.facts) == OwnCertificate(hs.facts.(ske := c.ske));
    hide WriteEntry, ReadEntry, OwnCertificate;
  }

  lemma SendServerKeyExchangeMoves(hs: Hs, n: int, c: Choice)
    requires Here(hs, n) && hs.state.SendServerKeyExchange?
    ensures Moves(hs, n, AfterSendServerKeyExchange(hs, c)) && Drops(hs, AfterSendServerKeyExchange(hs, c))
  {
    hide Takes, WriteEntry, ReadEntry;
  }

  lemma SendServerHelloDoneMoves(hs: Hs, n: int, c: Choice)
    requires Here(hs, n) && hs.state.SendServerHelloDone?
    ensures Moves(hs, n, AfterSendServerHelloDone(hs, c)) && Drops(hs, AfterSendServerHelloDone(hs, c))
  {
    hide Takes, WriteEntry, ReadEntry;
  }

  lemma ReadClientCertificateDrops(hs: Hs, c: Choice)
    requires hs.state.ReadClientCertificate?
    ensures Drops(hs, AfterReadClientCertificate(hs, c))
  {
    hide Takes, Shows, Rest, ParsedChain;
  }

  lemma ReadClientCertificateEntry(hs: Hs, c: Choice)
    requires hs.facts.certs == 0
    ensures var out := AfterReadClientCertificate(hs, c);
            out.hs.state != hs.state && hs.state.ReadClientCertificate? ==>
              |out.did| == 1 && ClientCertificate(out.hs.facts, out.did[0])
  {
    hide Takes, Shows, Rest, ParsedChain;
  }

  lemma ReadClientCertificateMoves(hs: Hs, n: int, c: Choice)
    requires Here(hs, n) && hs.state.ReadClientCertificate?
    ensures Moves(hs, n, AfterReadClientCertificate(hs, c)) && Drops(hs, AfterReadClientCertificate(hs, c))
  {
    hide Takes, WriteEntry, ReadEntry, Rest, Shows, ParsedChain, Drops, Rank, ClientCertificate;
    ReadClientCertificateDrops(hs, c);
    ReadClientCertificateEntry(hs, c);
    assert n == 6 && !hs.facts.resumed;
  }

  lemma VerifyClientCertificateMoves(hs: Hs, n: int, c: Choice)
    requires Here(hs, n) && hs.state.VerifyClientCertificate?
    ensures Moves(hs, n, AfterVerifyClientCertificate(hs, c)) && Drops(hs, AfterVerifyClientCertificate(hs, c))
  {
    hide Takes, WriteEntry, ReadEntry;
  }

  lemma ReadClientKeyExchangeMoves(hs: Hs, n: int, c: Choice)
    requires Here(hs, n) && hs.state.ReadClientKeyExchange?
    ensures Moves(hs, n, AfterReadClientKeyExchange(hs, c)) && Drops(hs, AfterReadClientKeyExchange(hs, c))
  {
    hide Takes, WriteEntry, ReadEntry, Rest, Shows;
  }

  lemma ReadClientCertificateVerifyMoves(hs: Hs, n: int, c: Choice)
    requires Here(hs, n) && hs.state.ReadClientCertificateVerify?
    ensures Moves(hs, n, AfterReadClientCertificateVerify(hs, c)) && Drops(hs, AfterReadClientCertificateVerify(hs, c))
  {
    hide Takes, WriteEntry, ReadEntry, Rest, Shows;
  }

  lemma ReadChangeCipherSpecMoves(hs: Hs, n: int, c: Choice)
    requires Here(hs, n) && hs.state.ReadChangeCipherSpec?
    ensures Moves(hs, n, AfterReadChangeCipherSpec(hs, c)) && Drops(hs, AfterReadChangeCipherSpec(hs, c))
  {
    hide Takes, WriteEntry, FullEntry, Rest, Shows;
  }

  lemma ProcessChangeCipherSpecMoves(hs: Hs, n: int, c: Choice)
    requires Here(hs, n) && hs.state.ProcessChangeCipherSpec?
    ensures Moves(hs, n, AfterProcessChangeCipherSpec(hs, c)) && Drops(hs, AfterProcessChangeCipherSpec(hs, c))
  {
    hide Takes, WriteEntry, FullEntry;
  }

  lemma ReadNextProtoMoves(hs: Hs, n: int, c: Choice)
    requires Here(hs, n) && hs.state.ReadNextProto?
    ensures Moves(hs, n, AfterReadNextProto(hs, c)) && Drops(hs, AfterReadNextProto(hs, c))
  {
    hide Takes, WriteEntry, FullEntry, Rest, Shows;
  }

  lemma ReadChannelIdMoves(hs: Hs, n: int, c: Choice)
    requires Here(hs, n) && hs.state.ReadChannelId?
    ensures Moves(hs, n, AfterReadChannelId(hs, c)) && Drops(hs, AfterReadChannelId(hs, c))
  {
    hide Takes, WriteEntry, FullEntry, Rest, Shows;
  }

  lemma ReadClientFinishedMoves(hs: Hs, n: int, c: Choice)
    requires Here(hs, n) && hs.state.ReadClientFinished?
    ensures Moves(hs, n, AfterReadClientFinished(hs, c)) && Drops(hs, AfterReadClientFinished(hs, c))
  {
    hide Takes, WriteEntry, FullEntry, Rest, Shows;
  }

  lemma SendServerFinishedMoves(hs: Hs, n: int, c: Choice)
    requires Here(hs, n) && hs.state.SendServerFinished?
    ensures Moves(hs, n, AfterSendServerFinished(hs, c)) && Drops(hs, AfterSendServerFinished(hs, c))
  {
    hide Takes, FullEntry, ReadEntry;
  }

  lemma FinishServerHandshakeMoves(hs: Hs, n: int, c: Choice)
    requires Here(hs, n) && hs.state.FinishServerHandshake?
    ensures Moves(hs, n, AfterFinishServerHandshake(hs, c)) && Drops(hs, AfterFinishServerHandshake(hs, c))
  {
    hide Takes, FullEntry, WriteEntry, ReadEntry;
  }

  lemma AdvanceMoves(hs: Hs, n: int, c: Choice)
    requires Here(hs, n) && !hs.state.Tls13? && !hs.state.Done?
    ensures Moves(hs, n, Advance(hs, c)) && Drops(hs, Advance(hs, c))
  {
    hide Takes;
    hide Moves;
    hide Drops;
    hide Here;
    hide AfterStartAccept, AfterReadClientHello, AfterSelectCertificate, AfterSelectParameters, AfterSendServerHello,
      AfterSendServerCertificate, AfterSendServerKeyExchange, AfterSendServerHelloDone, AfterReadClientCertificate,
      AfterVerifyClientCertificate, AfterReadClientKeyExchange, AfterReadClientCertificateVerify,
      AfterReadChangeCipherSpec, AfterProcessChangeCipherSpec, AfterReadNextProto, AfterReadChannelId,
      AfterReadClientFinished, AfterSendServerFinished, AfterFinishServerHandshake;
    match hs.state {
      case StartAccept => StartAcceptMoves(hs, n, c);
      case ReadClientHello => ReadClientHelloMoves(hs, n, c);
      case SelectCertificate => SelectCertificateMoves(hs, n, c);
      case SelectParameters => SelectParametersMoves(hs, n, c);
      case SendServerHello => SendServerHelloMoves(hs, n, c);
      case SendServerCertificate => SendServerCertificateMoves(hs, n, c);
      case SendServerKeyExchange => SendServerKeyExchangeMoves(hs, n, c);
      case SendServerHelloDone => SendServerHelloDoneMoves(hs, n, c);
      case ReadClientCertificate => ReadClientCertificateMoves(hs, n, c);
      case VerifyClientCertificate => VerifyClientCertificateMoves(hs, n, c);
      case ReadClientKeyExchange => ReadClientKeyExchangeMoves(hs, n, c);
      case ReadClientCertificateVerify => ReadClientCertificateVerifyMoves(hs, n, c);
      case ReadChangeCipherSpec => ReadChangeCipherSpecMoves(hs, n, c);
      case ProcessChangeCipherSpec => ProcessChangeCipherSpecMoves(hs, n, c);
      case ReadNextProto => ReadNextProtoMoves(hs, n, c);
      case ReadChannelId => ReadChannelIdMoves(hs, n, c);
      case ReadClientFinished => ReadClientFinishedMoves(hs, n, c);
      case SendServerFinished => SendServerFinishedMoves(hs, n, c);
      case FinishServerHandshake => FinishServerHandshakeMoves(hs, n, c);
      case Tls13 =>
      case Done =>
    }
  }

  lemma SameJudgement(f: Facts, g: Facts, n: int, k: nat, entry: seq<Event>)
    requires Kept(f, g, n) && k < n
    ensures EntryOk(f, k, entry) == EntryOk(g, k, entry)
  {
    if k == 2 {
      assert OwnCertificate(f) == OwnCertificate(g);
      hide OwnCertificate;
    }
  }

  lemma LogGrows(f: Facts, g: Facts, log: seq<seq<Event>>, did: seq<seq<Event>>)
    requires LogOk(f, log) && Kept(f, g, |log|) && Judged(g, |log|, did)
    ensures LogOk(g, log + did)
  {
    hide EntryOk;
    hide Kept;
    forall n | 0 <= n < |log + did| ensures EntryOk(g, n, (log + did)[n]) {
      if n < |log| {
        assert (log + did)[n] == log[n];
        SameJudgement(f, g, |log|, n, log[n]);
      } else {
        assert (log + did)[n] == did[n - |log|];
      }
    }
  }

  /** What a turn of the loop makes of a moment of a run. */
  lemma TurnIs(x: Config<Hs, Event>, c: Choice)
    ensures var out := Advance(x.hs, c);
            Next(SERVER, x, Machine(c)) ==
              Config(out.hs, out.wait, out.wait == Ok && !out.hs.state.Done?, x.log + out.did)
  {
    hide Advance;
  }

  lemma MachineKeepsInv(x: Config<Hs, Event>, c: Choice)
    requires Inv(x) && Enabled(SERVER, x, Machine(c))
    ensures Inv(Next(SERVER, x, Machine(c)))
  {
    TurnIs(x, c);
    hide Next;
    if !x.hs.state.Tls13? {
      hide Advance, LogOk, Judged, Kept, FactsOk;
      var out := Advance(x.hs, c);
      AdvanceMoves(x.hs, |x.log|, c);
      if out.did == [] {
        assert x.log + out.did == x.log;
      }
      if Kept(x.hs.facts, out.hs.facts, |x.log|) && Judged(out.hs.facts, |x.log|, out.did) {
        LogGrows(x.hs.facts, out.hs.facts, x.log, out.did);
      }
    }
  }

  lemma DriverKeepsInv(x: Config<Hs, Event>, io: Io)
    requires Inv(x) && Enabled(SERVER, x, Driver(io))
    ensures Inv(Next(SERVER, x, Driver(io)))
  {
    hide LogOk, Advance;
    var y := Next(SERVER, x, Driver(io));
    if x.wait == Wait.ReadChangeCipherSpec && y.running {
      LogGrows(x.hs.facts, x.hs.facts, x.log, [[GotCcs]]);
    }
  }

  lemma {:induction false} RunKeepsInv(run: seq<Config<Hs, Event>>, steps: seq<Step<Choice>>, i: nat)
    requires IsRun(SERVER, run, steps) && i < |run|
    ensures Inv(run[i])
  {
    if i > 0 {
      RunKeepsInv(run, steps, i - 1);
      hide Inv, Next;
      if steps[i - 1].Machine? {
        MachineKeepsInv(run[i - 1], steps[i - 1].choice);
      } else {
        DriverKeepsInv(run[i - 1], steps[i - 1].io);
      }
    }
  }

  // ---- What a run does, once and in order ---------------------------------------------------------

  /** The entry an event can be in. */
  function Place(f: Facts, e: Event): nat {
    match e
    case GotClientHello => 0
    case SentServerHello => 1
    case SentCertificate => 2
    case SentCertificateStatus => 2
    case SentServerKeyExchange => 3
    case SentCertificateRequest => 4
    case SentServerHelloDone => 5
    case GotCertificate => 6
    case GotEmptyCertificate => 6
    case CheckedCertificate => 7
    case GotClientKeyExchange => 8
    case CheckedCertificateVerify => 9
    case GotCcs => if f.resumed then 6 else 10
    case ChangedReadKey => if f.resumed then 7 else 11
    case GotNextProto => if f.resumed then 8 else 12
    case GotChannelId => if f.resumed then 9 else 13
    case VerifiedFinished => if f.resumed then 10 else 14
    case SentSessionTicket => if f.resumed then 2 else 15
    case SentCcs => if f.resumed then 3 else 16
    case ChangedWriteKey => if f.resumed then 4 else 17
    case SentFinished => if f.resumed then 5 else 18
  }

  lemma FullPlaced(f: Facts, n: int, entry: seq<Event>, e: Event)
    requires FullEntry(f, n, entry) && e in entry
    ensures n == Place(f, e)
  {
  }

  lemma ReadPlaced(f: Facts, n: int, entry: seq<Event>, e: Event)
    requires ReadEntry(f, n, entry) && e in entry
    ensures (if f.resumed then n + 6 else n + 10) == Place(f, e)
  {
  }

  lemma WritePlaced(f: Facts, n: int, entry: seq<Event>, e: Event)
    requires WriteEntry(f, n, entry) && e in entry
    ensures (if f.resumed then n + 2 else n + 15) == Place(f, e)
  {
  }

  lemma NoTwice(f: Facts, n: int, entry: seq<Event>)
    requires EntryOk(f, n, entry)
    ensures |entry| <= 2 && (|entry| == 2 ==> entry[0] != entry[1])
  {
  }

  lemma CountedOnce(f: Facts, n: int, entry: seq<Event>, e: Event)
    requires EntryOk(f, n, entry) && e in entry
    ensures multiset(entry)[e] == 1
  {
    NoTwice(f, n, entry);
    hide *;
    NoneTwice(entry, e);
  }

  lemma Placed(f: Facts, n: nat, entry: seq<Event>, e: Event)
    requires EntryOk(f, n, entry) && e in entry
    ensures n == Place(f, e)
  {
    if n > 1 {
      hide FullEntry, ReadEntry, WriteEntry, Place;
      if f.resumed {
        if n <= 5 { WritePlaced(f, n - 2, entry, e); } else { ReadPlaced(f, n - 6, entry, e); }
      } else if n <= 9 {
        FullPlaced(f, n, entry, e);
      } else if n <= 14 {
        ReadPlaced(f, n - 10, entry, e);
      } else {
        WritePlaced(f, n - 15, entry, e);
      }
    }
  }

  /** What every handshake passes through. */
  predicate Needed(f: Facts, e: Event) {
    || e.GotClientHello? || e.SentServerHello?
    || e.GotCcs? || e.ChangedReadKey? || e.VerifiedFinished? || e.SentCcs? || e.ChangedWriteKey? || e.SentFinished?
    || (f.nextProto && e.GotNextProto?) || (f.channelId && e.GotChannelId?) || (f.ticketExpected && e.SentSessionTicket?)
    || (!f.resumed &&
          (|| e.SentServerHelloDone? || e.GotClientKeyExchange? || (f.usesCert && e.SentCertificate?)
           || (f.ske && e.SentServerKeyExchange?) || (f.certRequest && e.SentCertificateRequest?)
           || (f.certs > 0 && (e.GotCertificate? || e.CheckedCertificate?)) || (f.peerKey && e.CheckedCertificateVerify?)))
  }

  lemma NeededThere(f: Facts, n: nat, entry: seq<Event>, e: Event)
    requires Needed(f, e) && EntryOk(f, n, entry) && n == Place(f, e)
    ensures e in entry
  {
  }

  function PlaceIn(f: Facts): Event -> nat {
    e => Place(f, e)
  }

  function NeededIn(f: Facts): Event -> bool {
    e => Needed(f, e)
  }

  lemma LogPlaced(f: Facts, log: seq<seq<Event>>)
    requires LogOk(f, log)
    ensures InPlace(log, PlaceIn(f)) && NoneMissing(log, PlaceIn(f), NeededIn(f))
  {
    hide EntryOk, Place, Needed;
    forall n, e | 0 <= n < |log| && e in log[n] ensures PlaceIn(f)(e) == n && multiset(log[n])[e] == 1 {
      Placed(f, n, log[n], e);
      CountedOnce(f, n, log[n], e);
    }
    forall e | NeededIn(f)(e) && PlaceIn(f)(e) < |log| ensures e in log[PlaceIn(f)(e)] {
      NeededThere(f, Place(f, e), log[Place(f, e)], e);
    }
  }

  /**
   In any run, blocked and entered again however often: whatever has happened happened once and in its
   place, and of what is needed nothing is missing before the place the log has reached; at state_done
   nothing needed is missing at all.
   */
  lemma RunInPlace(run: seq<Config<Hs, Event>>, steps: seq<Step<Choice>>, i: nat)
    requires IsRun(SERVER, run, steps) && i < |run| && !run[i].hs.state.Tls13?
    ensures var f, log := run[i].hs.facts, run[i].log;
            && LogOk(f, log) && InPlace(log, PlaceIn(f)) && NoneMissing(log, PlaceIn(f), NeededIn(f))
            && (run[i].hs.state.Done? ==> forall e | Needed(f, e) :: e in Events(log))
  {
    hide IsRun, LogOk, InPlace, NoneMissing;
    RunKeepsInv(run, steps, i);
    var f, log := run[i].hs.facts, run[i].log;
    LogPlaced(f, log);
    if run[i].hs.state.Done? {
      forall e | Needed(f, e) ensures e in Events(log) {
        assert Place(f, e) < |log|;
        hide Place, Needed;
        IsThere(f, log, e);
      }
    }
  }

  /** NeededBefore with the places and needs of this side. */
  lemma Before(f: Facts, log: seq<seq<Event>>, a: Event, b: Event)
    requires InPlace(log, PlaceIn(f)) && NoneMissing(log, PlaceIn(f), NeededIn(f))
    requires Needed(f, a) && b in Events(log) && Place(f, a) < Place(f, b)
    ensures a in Events(log) && Once(log, a) && Once(log, b) && Precedes(Events(log), a, b)
  {
    hide InPlace, NoneMissing, Place, Needed, Events, Once, Precedes;
    NeededBefore(log, PlaceIn(f), NeededIn(f), a, b);
  }

  lemma IsThere(f: Facts, log: seq<seq<Event>>, e: Event)
    requires LogOk(f, log) && Needed(f, e) && Place(f, e) < |log|
    ensures e in Events(log)
  {
    hide EntryOk, Place, Needed;
    NeededThere(f, Place(f, e), log[Place(f, e)], e);
    EventsHave(log, Place(f, e), e);
  }

  /**
   At state_done each direction's ChangeCipherSpec came before its key change, that before its Finished,
   and each just once; a full handshake took the client's before it sent its own, a resumed one the
   other way round.
   */
  lemma FinishedInOrder(run: seq<Config<Hs, Event>>, steps: seq<Step<Choice>>, i: nat)
    requires IsRun(SERVER, run, steps) && i < |run| && run[i].hs.state.Done?
    ensures var events, log := Events(run[i].log), run[i].log;
            && Once(log, GotCcs) && Once(log, ChangedReadKey) && Once(log, VerifiedFinished)
            && Once(log, SentCcs) && Once(log, ChangedWriteKey) && Once(log, SentFinished)
            && Precedes(events, GotCcs, ChangedReadKey) && Precedes(events, ChangedReadKey, VerifiedFinished)
            && Precedes(events, SentCcs, ChangedWriteKey) && Precedes(events, ChangedWriteKey, SentFinished)
            && (if run[i].hs.facts.resumed then Precedes(events, SentFinished, GotCcs)
                else Precedes(events, VerifiedFinished, SentCcs))
  {
    hide IsRun, LogOk, InPlace, NoneMissing, Events, Precedes, Once;
    RunInPlace(run, steps, i);
    var f, log := run[i].hs.facts, run[i].log;
    hide PlaceIn, NeededIn;
    Before(f, log, GotCcs, ChangedReadKey);
    Before(f, log, ChangedReadKey, VerifiedFinished);
    Before(f, log, SentCcs, ChangedWriteKey);
    Before(f, log, ChangedWriteKey, SentFinished);
    if f.resumed {
      Before(f, log, SentFinished, GotCcs);
    } else {
      Before(f, log, VerifiedFinished, SentCcs);
    }
  }

  /** A certificate that has come has an entry of its own, and shows in the facts. */
  lemma CertificateShows(f: Facts, log: seq<seq<Event>>, e: Event)
    requires LogOk(f, log) && InPlace(log, PlaceIn(f)) && e in Events(log)
    requires e.GotCertificate? || e.CheckedCertificate? || e.CheckedCertificateVerify?
    ensures !f.resumed && if e.CheckedCertificateVerify? then f.peerKey else f.certs > 0
  {
    hide InPlace;
    OnlyThere(log, PlaceIn(f), e);
    assert EntryOk(f, Place(f, e), log[Place(f, e)]);
  }

  /**
   Once the client's ChangeCipherSpec has been taken, possession of a certificate's key has been
   checked exactly when a client certificate came; it was asked for and checked, and the key
   exchange was accepted only then.
   */
  lemma VerifiedExactlyWhenGiven(run: seq<Config<Hs, Event>>, steps: seq<Step<Choice>>, i: nat)
    requires IsRun(SERVER, run, steps) && i < |run| && !run[i].hs.state.Tls13? && GotCcs in Events(run[i].log)
    ensures var events, log := Events(run[i].log), run[i].log;
            && (GotCertificate in events <==> CheckedCertificateVerify in events)
            && (GotCertificate in events ==>
                  && Once(log, CheckedCertificateVerify) && Precedes(events, SentCertificateRequest, GotCertificate)
                  && Precedes(events, GotCertificate, CheckedCertificate)
                  && Precedes(events, CheckedCertificate, GotClientKeyExchange)
                  && Precedes(events, GotClientKeyExchange, CheckedCertificateVerify)
                  && Precedes(events, CheckedCertificateVerify, GotCcs))
  {
    hide IsRun, LogOk, InPlace, NoneMissing, Events, Precedes, Once;
    RunInPlace(run, steps, i);
    RunKeepsInv(run, steps, i);
    var f, log := run[i].hs.facts, run[i].log;
    var events := Events(log);
    hide PlaceIn, NeededIn;
    if GotCertificate in events || CheckedCertificateVerify in events {
      CertificateShows(f, log, if GotCertificate in events then GotCertificate else CheckedCertificateVerify);
      Before(f, log, CheckedCertificateVerify, GotCcs);
      Before(f, log, GotClientKeyExchange, CheckedCertificateVerify);
      Before(f, log, CheckedCertificate, GotClientKeyExchange);
      Before(f, log, GotCertificate, CheckedCertificate);
      Before(f, log, SentCertificateRequest, GotCertificate);
    }
  }

  /** The key exchange is accepted only after a client certificate has been checked. */
  lemma CheckedBeforeKeyExchange(run: seq<Config<Hs, Event>>, steps: seq<Step<Choice>>, i: nat)
    requires IsRun(SERVER, run, steps) && i < |run| && !run[i].hs.state.Tls13?
    requires GotCertificate in Events(run[i].log) && GotClientKeyExchange in Events(run[i].log)
    ensures Precedes(Events(run[i].log), CheckedCertificate, GotClientKeyExchange)
  {
    hide IsRun, LogOk, InPlace, NoneMissing, Events, Precedes, Once;
    RunInPlace(run, steps, i);
    var f, log := run[i].hs.facts, run[i].log;
    CertificateShows(f, log, GotCertificate);
    Before(f, log, CheckedCertificate, GotClientKeyExchange);
  }

  // ---- Messages are accounted for -----------------------------------------------------------------

  lemma HelloStaysEarly(hs: Hs, c: Choice)
    requires hs.state.StartAccept? || hs.state.ReadClientHello? || hs.state.SelectCertificate? || hs.state.SelectParameters?
    requires HelloShown(hs)
    ensures HelloShown(Advance(hs, c).hs)
  {
    hide AfterSendServerHello, AfterSendServerCertificate, AfterSendServerKeyExchange, AfterSendServerHelloDone,
      AfterReadClientCertificate, AfterVerifyClientCertificate, AfterReadClientKeyExchange,
      AfterReadClientCertificateVerify, AfterReadChangeCipherSpec, AfterProcessChangeCipherSpec, AfterReadNextProto,
      AfterReadChannelId, AfterReadClientFinished, AfterSendServerFinished, AfterFinishServerHandshake;
  }

  lemma HelloStaysAfter(x: Config<Hs, Event>, c: Choice)
    requires Inv(x) && Enabled(SERVER, x, Machine(c)) && HelloShown(x.hs)
    ensures HelloShown(Advance(x.hs, c).hs)
  {
    if x.hs.state.StartAccept? || x.hs.state.ReadClientHello? || x.hs.state.SelectCertificate?
       || x.hs.state.SelectParameters? {
      hide Advance;
      HelloStaysEarly(x.hs, c);
    } else {
      hide Advance, Inv;
      Goes(x, c);
    }
  }

  lemma FirstHello()
    ensures HelloShown(SERVER.start)
  {
    hide Takes;
  }

  lemma HelloStaysWaiting(x: Config<Hs, Event>, io: Io)
    requires HelloShown(x.hs) && Enabled(SERVER, x, Driver(io))
    ensures HelloShown(Next(SERVER, x, Driver(io)).hs)
  {
    hide Advance, Takes;
  }

  /** The ClientHello that was looked at is still in front when it is taken. */
  lemma {:induction false} HelloStays(run: seq<Config<Hs, Event>>, steps: seq<Step<Choice>>, i: nat)
    requires IsRun(SERVER, run, steps) && i < |run|
    ensures HelloShown(run[i].hs)
  {
    hide Inv, Takes, Advance, Next, HelloShown, Enabled;
    if i == 0 {
      FirstHello();
    } else {
      HelloStays(run, steps, i - 1);
      RunKeepsInv(run, steps, i - 1);
      if steps[i - 1].Machine? {
        TurnIs(run[i - 1], steps[i - 1].choice);
        HelloStaysAfter(run[i - 1], steps[i - 1].choice);
      } else {
        HelloStaysWaiting(run[i - 1], steps[i - 1].io);
      }
    }
  }

  /** Every message the transport delivered was taken by the step its type is for, in order, or is still waiting. */
  lemma MessagesAccountedFor(run: seq<Config<Hs, Event>>, steps: seq<Step<Choice>>, i: nat)
    requires IsRun(SERVER, run, steps) && i < |run|
    ensures Delivered(run, steps, i) == Received(Events(run[i].log), SERVER.message) + run[i].hs.inbox
  {
    hide IsRun, Advance, Takes, Events, Received, Delivered;
    forall k | 0 <= k < i ensures TurnTakes(SERVER, run[k].hs) {
      HelloStays(run, steps, k);
    }
    Accounted(SERVER, run, steps, i);
  }

  // ---- Every state change goes down ---------------------------------------------------------------

  lemma Goes(x: Config<Hs, Event>, c: Choice)
    requires Inv(x) && !x.hs.state.Done? && x.running
    ensures var out := Advance(x.hs, c);
            && (out.hs.state.Done? ==> out.wait == Ok)
            && (out.hs.facts.resumed == x.hs.facts.resumed || x.hs.state.SelectParameters?)
            && (if out.hs.state == x.hs.state then out.wait != Ok
                else Rank(out.hs.state, out.hs.facts.resumed) < Rank(x.hs.state, x.hs.facts.resumed))
  {
    if !x.hs.state.Tls13? {
      hide LogOk, Advance, Rank, FactsOk;
      AdvanceMoves(x.hs, |x.log|, c);
    }
  }

  /** Each turn of ssl_server_handshake's loop that goes on goes down in rank; resumption is settled once. */
  lemma RankDrops(run: seq<Config<Hs, Event>>, steps: seq<Step<Choice>>, i: nat)
    requires IsRun(SERVER, run, steps) && i < |steps| && steps[i].Machine?
    ensures var a, b := run[i].hs, run[i + 1].hs;
            && (b.facts.resumed == a.facts.resumed || a.state.SelectParameters?)
            && (if b.state == a.state then !run[i + 1].running
                else Rank(b.state, b.facts.resumed) < Rank(a.state, a.facts.resumed))
  {
    RunKeepsInv(run, steps, i);
    hide Inv, Advance, Rank;
    Goes(run[i], steps[i].choice);
  }

  // ---- The code ---------------------------------------------------------------------------------

  /** ssl_parse_cert_chain: the two outputs are set together, at the end. */
  method ParseCertChain(list: seq<Cert>) returns (parsed: Option<Chain>)
    ensures parsed == ParsedChain(list)
    ensures parsed.Some? ==> parsed.value.certs == |list| && (parsed.value.key <==> parsed.value.certs > 0)
  {
    if list == [] { return Some(Chain(0, false)); }
    var certs, key := 0, false;
    while certs < |list|
      invariant certs <= |list| && (key <==> certs > 0)
      invariant forall k | 0 <= k < certs :: !list[k].empty
      invariant certs > 0 ==> list[0].keyParses
    {
      if list[certs].empty { return None; }
      if certs == 0 {
        if !list[certs].keyParses { return None; }
        key := true;
      }
      certs := certs + 1;
    }
    return Some(Chain(certs, key));
  }

  class ServerHandshake {
    var state: State
    var wait: Wait
    var inbox: seq<MsgType>
    var facts: Facts
    ghost var run: seq<Config<Hs, Event>>
    ghost var steps: seq<Step<Choice>>

    ghost function Value(): Hs
      reads this
    {
      Hs(state, inbox, facts)
    }

    /** The history is a run, and ends with what the fields hold. */
    ghost predicate Valid()
      reads this
    {
      IsRun(SERVER, run, steps) && run[|steps|] == Config(Value(), wait, false, run[|steps|].log)
    }

    /** Inside ssl_server_handshake, which keeps what it returns to itself until then. */
    ghost predicate Within()
      reads this
    {
      IsRun(SERVER, run, steps) && run[|steps|] == Config(Value(), Ok, !state.Done?, run[|steps|].log)
    }

    constructor ()
      ensures Valid() && steps == []
    {
      state, wait, inbox, facts := StartAccept, Ok, [], NOTHING_YET;
      run, steps := [Config(Hs(StartAccept, [], NOTHING_YET), Ok, false, [])], [];
    }

    method DoStartAccept(c: Choice) returns (ret: Wait, ghost did: seq<seq<Event>>)
      requires state.StartAccept?
      modifies this`state, this`inbox, this`facts
      ensures Outcome(Value(), ret, did) == AfterStartAccept(old(Value()), c)
    {
      state := ReadClientHello;
      return Ok, [];
    }

    method DoReadClientHello(c: Choice) returns (ret: Wait, ghost did: seq<seq<Event>>)
      requires state.ReadClientHello?
      modifies this`state, this`inbox, this`facts
      ensures Outcome(Value(), ret, did) == AfterReadClientHello(old(Value()), c)
    {
      if inbox == [] { return ReadMessage, []; }
      if inbox[0] != ClientHello { return Error, []; }
      if c.retry { return Paused, []; }
      if !c.ok { return Error, []; }
      state := SelectCertificate;
      return Ok, [];
    }

    method DoSelectCertificate(c: Choice) returns (ret: Wait, ghost did: seq<seq<Event>>)
      requires state.SelectCertificate?
      modifies this`state, this`inbox, this`facts
      ensures Outcome(Value(), ret, did) == AfterSelectCertificate(old(Value()), c)
    {
      if inbox == [] { return ReadMessage, []; }
      if c.retry { return Paused, []; }
      if !c.ok { return Error, []; }
      if c.tls13 {
        state := Tls13;
        return Ok, [];
      }
      state := SelectParameters;
      return Ok, [];
    }

    method DoSelectParameters(c: Choice) returns (ret: Wait, ghost did: seq<seq<Event>>)
      requires state.SelectParameters?
      modifies this`state, this`inbox, this`facts
      ensures Outcome(Value(), ret, did) == AfterSelectParameters(old(Value()), c)
    {
      if inbox == [] { return ReadMessage, []; }
      if c.retry { return Paused, []; }
      if !c.ok { return Error, []; }
      var s := c.settled;
      facts := facts.(resumed := s.resumed, usesCert := s.usesCert, ticketExpected := s.ticketExpected);
      facts := facts.(statusExpected := s.statusExpected, nextProto := s.nextProto, channelId := s.channelId);
      facts := facts.(certRequest := false, ssl3 := s.ssl3);
      if !s.resumed {
        var request := s.verifyPeer;
        if !s.usesCert { request := false; }
        facts := facts.(certRequest := request);
      }
      inbox := inbox[1..];
      state := SendServerHello;
      return Ok, [[GotClientHello]];
    }

    method DoSendServerHello(c: Choice) returns (ret: Wait, ghost did: seq<seq<Event>>)
      requires state.SendServerHello?
      modifies this`state, this`inbox, this`facts
      ensures Outcome(Value(), ret, did) == AfterSendServerHello(old(Value()), c)
    {
      if !c.ok { return Error, []; }
      if !c.keepChannelId { facts := facts.(channelId := false); }
      if facts.resumed {
        state := SendServerFinished;
      } else {
        state := SendServerCertificate;
      }
      return Ok, [[SentServerHello]];
    }

    method DoSendServerCertificate(c: Choice) returns (ret: Wait, ghost did: seq<seq<Event>>)
      requires state.SendServerCertificate?
      modifies this`state, this`inbox, this`facts
      ensures Outcome(Value(), ret, did) == AfterSendServerCertificate(old(Value()), c)
    {
      if !c.ok { return Error, []; }
      ghost var sent: seq<Event> := [];
      if facts.usesCert {
        sent := sent + [SentCertificate];
        if facts.statusExpected { sent := sent + [SentCertificateStatus]; }
      }
      facts := facts.(ske := c.ske);
      state := SendServerKeyExchange;
      assert sent == OwnCertificate(old(facts));
      return Ok, [sent];
    }

    method DoSendServerKeyExchange(c: Choice) returns (ret: Wait, ghost did: seq<seq<Event>>)
      requires state.SendServerKeyExchange?
      modifies this`state, this`inbox, this`facts
      ensures Outcome(Value(), ret, did) == AfterSendServerKeyExchange(old(Value()), c)
    {
      if !facts.ske {
        state := SendServerHelloDone;
        return Ok, [[]];
      }
      if facts.usesCert && c.retry { return Paused, []; }
      if !c.ok { return Error, []; }
      state := SendServerHelloDone;
      return Ok, [[SentServerKeyExchange]];
    }

    method DoSendServerHelloDone(c: Choice) returns (ret: Wait, ghost did: seq<seq<Event>>)
      requires state.SendServerHelloDone?
      modifies this`state, this`inbox, this`facts
      ensures Outcome(Value(), ret, did) == AfterSendServerHelloDone(old(Value()), c)
    {
      if !c.ok { return Error, []; }
      ghost var sent: seq<Event> := [];
      if facts.certRequest { sent := sent + [SentCertificateRequest]; }
      state := ReadClientCertificate;
      assert sent == If(facts.certRequest, SentCertificateRequest);
      return Flush, [sent, [SentServerHelloDone]];
    }

    method DoReadClientCertificate(c: Choice) returns (ret: Wait, ghost did: seq<seq<Event>>)
      requires state.ReadClientCertificate?
      modifies this`state, this`inbox, this`facts
      ensures Outcome(Value(), ret, did) == AfterReadClientCertificate(old(Value()), c)
    {
      if !facts.certRequest {
        state := VerifyClientCertificate;
        return Ok, [[]];
      }
      if inbox == [] { return ReadMessage, []; }
      if inbox[0] != Certificate {
        if facts.ssl3 && inbox[0] == ClientKeyExchange {
          if c.certRequired { return Error, []; }
          state := VerifyClientCertificate;
          return Ok, [[]];
        }
        return Error, [];
      }
      var parsed := ParseCertChain(c.chain);
      if parsed.None? { return Error, []; }
      if !c.ok { return Error, []; }
      if parsed.value.certs == 0 {
        if facts.ssl3 || c.certRequired { return Error, []; }
      }
      facts := facts.(certs := parsed.value.certs, peerKey := parsed.value.key);
      inbox := inbox[1..];
      state := VerifyClientCertificate;
      return Ok, [[if parsed.value.certs == 0 then GotEmptyCertificate else GotCertificate]];
    }

    method DoVerifyClientCertificate(c: Choice) returns (ret: Wait, ghost did: seq<seq<Event>>)
      requires state.VerifyClientCertificate?
      modifies this`state, this`inbox, this`facts
      ensures Outcome(Value(), ret, did) == AfterVerifyClientCertificate(old(Value()), c)
    {
      if facts.certs == 0 {
        state := ReadClientKeyExchange;
        return Ok, [[]];
      }
      match c.verdict {
        case Valid =>
        case Invalid => return Error, [];
        case Retry => return Paused, [];
      }
      state := ReadClientKeyExchange;
      return Ok, [[CheckedCertificate]];
    }

    method DoReadClientKeyExchange(c: Choice) returns (ret: Wait, ghost did: seq<seq<Event>>)
      requires state.ReadClientKeyExchange?
      modifies this`state, this`inbox, this`facts
      ensures Outcome(Value(), ret, did) == AfterReadClientKeyExchange(old(Value()), c)
    {
      if inbox == [] { return ReadMessage, []; }
      if inbox[0] != ClientKeyExchange { return Error, []; }
      if c.retry { return Paused, []; }
      if !c.ok { return Error, []; }
      inbox := inbox[1..];
      state := ReadClientCertificateVerify;
      return Ok, [[GotClientKeyExchange]];
    }

    method DoReadClientCertificateVerify(c: Choice) returns (ret: Wait, ghost did: seq<seq<Event>>)
      requires state.ReadClientCertificateVerify?
      modifies this`state, this`inbox, this`facts
      ensures Outcome(Value(), ret, did) == AfterReadClientCertificateVerify(old(Value()), c)
    {
      if !facts.peerKey {
        state := State.ReadChangeCipherSpec;
        return Ok, [[]];
      }
      if inbox == [] { return ReadMessage, []; }
      if inbox[0] != CertificateVerify || !c.ok { return Error, []; }
      if !c.signatureOk { return Error, []; }
      inbox := inbox[1..];
      state := State.ReadChangeCipherSpec;
      return Ok, [[CheckedCertificateVerify]];
    }

    method DoReadChangeCipherSpec(c: Choice) returns (ret: Wait, ghost did: seq<seq<Event>>)
      requires state.ReadChangeCipherSpec?
      modifies this`state, this`inbox, this`facts
      ensures Outcome(Value(), ret, did) == AfterReadChangeCipherSpec(old(Value()), c)
    {
      state := ProcessChangeCipherSpec;
      return Wait.ReadChangeCipherSpec, [];
    }

    method DoProcessChangeCipherSpec(c: Choice) returns (ret: Wait, ghost did: seq<seq<Event>>)
      requires state.ProcessChangeCipherSpec?
      modifies this`state, this`inbox, this`facts
      ensures Outcome(Value(), ret, did) == AfterProcessChangeCipherSpec(old(Value()), c)
    {
      if !c.ok { return Error, []; }
      state := ReadNextProto;
      return Ok, [[ChangedReadKey]];
    }

    method DoReadNextProto(c: Choice) returns (ret: Wait, ghost did: seq<seq<Event>>)
      requires state.ReadNextProto?
      modifies this`state, this`inbox, this`facts
      ensures Outcome(Value(), ret, did) == AfterReadNextProto(old(Value()), c)
    {
      if !facts.nextProto {
        state := ReadChannelId;
        return Ok, [[]];
      }
      if inbox == [] { return ReadMessage, []; }
      if inbox[0] != NextProto || !c.ok { return Error, []; }
      inbox := inbox[1..];
      state := ReadChannelId;
      return Ok, [[GotNextProto]];
    }

    method DoReadChannelId(c: Choice) returns (ret: Wait, ghost did: seq<seq<Event>>)
      requires state.ReadChannelId?
      modifies this`state, this`inbox, this`facts
      ensures Outcome(Value(), ret, did) == AfterReadChannelId(old(Value()), c)
    {
      if !facts.channelId {
        state := ReadClientFinished;
        return Ok, [[]];
      }
      if inbox == [] { return ReadMessage, []; }
      if inbox[0] != ChannelId || !c.ok { return Error, []; }
      if !c.signatureOk { return Error, []; }
      inbox := inbox[1..];
      state := ReadClientFinished;
      return Ok, [[GotChannelId]];
    }

    method DoReadClientFinished(c: Choice) returns (ret: Wait, ghost did: seq<seq<Event>>)
      requires state.ReadClientFinished?
      modifies this`state, this`inbox, this`facts
      ensures Outcome(Value(), ret, did) == AfterReadClientFinished(old(Value()), c)
    {
      if inbox == [] { return ReadMessage, []; }
      if inbox[0] != Finished || !c.ok { return Error, []; }
      if !c.finishedMatches { return Error, []; }
      inbox := inbox[1..];
      if facts.resumed {
        state := FinishServerHandshake;
      } else {
        state := SendServerFinished;
      }
      if !facts.resumed && facts.channelId && !c.recorded { return Error, [[VerifiedFinished]]; }
      return Ok, [[VerifiedFinished]];
    }

    method DoSendServerFinished(c: Choice) returns (ret: Wait, ghost did: seq<seq<Event>>)
      requires state.SendServerFinished?
      modifies this`state, this`inbox, this`facts
      ensures Outcome(Value(), ret, did) == AfterSendServerFinished(old(Value()), c)
    {
      if !c.ok { return Error, []; }
      ghost var sent: seq<Event> := [];
      if facts.ticketExpected { sent := sent + [SentSessionTicket]; }
      if facts.resumed {
        state := State.ReadChangeCipherSpec;
      } else {
        state := FinishServerHandshake;
      }
      assert sent == If(facts.ticketExpected, SentSessionTicket);
      return Flush, [sent, [SentCcs], [ChangedWriteKey], [SentFinished]];
    }

    method DoFinishServerHandshake(c: Choice) returns (ret: Wait, ghost did: seq<seq<Event>>)
      requires state.FinishServerHandshake?
      modifies this`state, this`inbox, this`facts
      ensures Outcome(Value(), ret, did) == AfterFinishServerHandshake(old(Value()), c)
    {
      state := Done;
      return Ok, [];
    }

    /** One turn of the loop: the switch. */
    method Turn(c: Choice) returns (ret: Wait, ghost did: seq<seq<Event>>)
      modifies this`state, this`inbox, this`facts
      ensures Outcome(Value(), ret, did) == Advance(old(Value()), c)
    {
      hide AfterStartAccept, AfterReadClientHello, AfterSelectCertificate, AfterSelectParameters,
        AfterSendServerHello, AfterSendServerCertificate, AfterSendServerKeyExchange, AfterSendServerHelloDone,
        AfterReadClientCertificate, AfterVerifyClientCertificate, AfterReadClientKeyExchange,
        AfterReadClientCertificateVerify, AfterReadChangeCipherSpec, AfterProcessChangeCipherSpec, AfterReadNextProto,
        AfterReadChannelId, AfterReadClientFinished, AfterSendServerFinished, AfterFinishServerHandshake;
      ret, did := Error, [];
      match state {
        case StartAccept => ret, did := DoStartAccept(c);
        case ReadClientHello => ret, did := DoReadClientHello(c);
        case SelectCertificate => ret, did := DoSelectCertificate(c);
        case SelectParameters => ret, did := DoSelectParameters(c);
        case SendServerHello => ret, did := DoSendServerHello(c);
        case SendServerCertificate => ret, did := DoSendServerCertificate(c);
        case SendServerKeyExchange => ret, did := DoSendServerKeyExchange(c);
        case SendServerHelloDone => ret, did := DoSendServerHelloDone(c);
        case ReadClientCertificate => ret, did := DoReadClientCertificate(c);
        case VerifyClientCertificate => ret, did := DoVerifyClientCertificate(c);
        case ReadClientKeyExchange => ret, did := DoReadClientKeyExchange(c);
        case ReadClientCertificateVerify => ret, did := DoReadClientCertificateVerify(c);
        case ReadChangeCipherSpec => ret, did := DoReadChangeCipherSpec(c);
        case ProcessChangeCipherSpec => ret, did := DoProcessChangeCipherSpec(c);
        case ReadNextProto => ret, did := DoReadNextProto(c);
        case ReadChannelId => ret, did := DoReadChannelId(c);
        case ReadClientFinished => ret, did := DoReadClientFinished(c);
        case SendServerFinished => ret, did := DoSendServerFinished(c);
        case FinishServerHandshake => ret, did := DoFinishServerHandshake(c);
        case Tls13 => ret := Error;
        case Done => ret := Ok;
      }
    }

    /** ssl_server_handshake: it comes back with ssl_hs_ok only at state_done. */
    method Handshake() returns (ret: Wait)
      requires Within()
      modifies `state, `inbox, `facts, `run, `steps
      ensures IsRun(SERVER, run, steps) && run[|steps|] == Config(Value(), ret, false, run[|steps|].log)
      ensures old(run) <= run && old(steps) <= steps
      ensures ret == Ok <==> state.Done?
    {
      hide Advance, Resolve;
      while state != Done
        invariant Within()
        invariant old(run) <= run && old(steps) <= steps
        decreases Rank(state, facts.resumed)
      {
        var c: Choice := *;
        ghost var before, did;
        before := run[|steps|];
        RunKeepsInv(run, steps, |steps|);
        Goes(before, c);
        ret, did := Turn(c);
        assert Outcome(Value(), ret, did) == Advance(before.hs, c);
        RunExtends(SERVER, run, steps, Machine(c));
        run := run + [Next(SERVER, before, Machine(c))];
        steps := steps + [Machine(c)];
        if ret != Ok { return; }
      }
      ret := Ok;
    }

    /** The top of ssl_run_handshake's loop, with what the transport gives: come back, go on waiting, or run on. */
    method ResolveWait(io: Io) returns (stop: bool, again: bool, ret: Returned)
      requires Valid() && !state.Done?
      modifies `wait, `inbox, `run, `steps
      ensures run == old(run) + [Next(SERVER, old(run[|steps|]), Driver(io))] && steps == old(steps) + [Driver(io)]
      ensures if stop || again then Valid() else Within()
      ensures !ret.Completed? && (old(wait) == Error ==> stop)
      ensures !stop && old(wait) != Ok ==> !io.Blocked?
      ensures again ==> old(wait) != Ok
    {
      hide Advance;
      RunExtends(SERVER, run, steps, Driver(io));
      run := run + [Next(SERVER, run[|steps|], Driver(io))];
      steps := steps + [Driver(io)];
      stop, again, ret := false, false, Stopped;
      assert inbox + [] == inbox;
      match wait {
        case Error => stop := true;
        case Flush => stop := !io.Succeeded?;
        case ReadMessage =>
          stop, again := io.Blocked?, io.Discarded?;
          if io.Succeeded? { inbox := inbox + io.msgs; }
        case ReadChangeCipherSpec =>
          stop, again := io.Blocked?, io.Discarded?;
        case Paused =>
          wait, stop := Ok, true;
        case EarlyReturn =>
          wait, stop, ret := Ok, true, Early;
        case Ok =>
      }
    }

    /**
     ssl_run_handshake.  io is what the transport gives from now on, and when it has given that it
     blocks.  Success is reported at state_done and nowhere else.
     */
    method RunHandshake(io: seq<Io>) returns (ret: Returned)
      requires Valid() && !state.Done?
      modifies `state, `wait, `inbox, `facts, `run, `steps
      ensures Valid() && old(run) <= run && old(steps) <= steps
      ensures ret.Completed? <==> state.Done?
    {
      hide Next, IsRun;
      var k := 0;
      while true
        invariant Valid() && !state.Done?
        invariant old(run) <= run && old(steps) <= steps
        invariant 0 <= k <= |io|
        decreases |io| - k, if wait == Ok then 1 else 0
      {
        var next := if k < |io| then io[k] else Blocked;
        if wait != Ok && k < |io| { k := k + 1; }
        var stop, again;
        stop, again, ret := ResolveWait(next);
        if stop { return; }
        if again { continue; }
        wait := Handshake();
        if wait == Ok { return Completed; }
        if wait == Error { return Stopped; }
      }
    }
  }
}
