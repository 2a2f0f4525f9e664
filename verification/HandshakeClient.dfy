/**
 The client's handshake state machine up to TLS 1.2, and every run of it under the blocking driver.
 */
module HandshakeClient {
  import opened Handshake

  datatype State =
    | StartConnect | EnterEarlyData | ReadHelloVerifyRequest | ReadServerHello | Tls13
    | ReadServerCertificate | ReadCertificateStatus | VerifyServerCertificate | ReadServerKeyExchange
    | ReadCertificateRequest | ReadServerHelloDone | SendClientCertificate | SendClientKeyExchange
    | SendClientCertificateVerify | SendClientFinished | FinishFlight | ReadSessionTicket
    | ProcessChangeCipherSpec | ReadServerFinished | FinishClientHandshake | Done

  /** What happens that the other side, or the rest of the connection, takes notice of. */
  datatype Event =
    | SentClientHello | SentEarlyCcs | GotHelloVerifyRequest | ResentClientHello | GotServerHello | GotCertificate
    | GotCertificateStatus | CheckedCertificate | GotServerKeyExchange | GotCertificateRequest | GotServerHelloDone
    | SentCertificate | SentClientKeyExchange | SentCertificateVerify | SentCcs | ChangedWriteKey | SentNextProto
    | SentChannelId | SentFinished | GotSessionTicket | GotCcs | ChangedReadKey | VerifiedFinished

  datatype Version = Ssl30 | Tls10 | Tls11 | Tls12

  datatype KeyExchange = Rsa | Ecdhe | Psk

  /** What of a cipher suite the handshake goes by: algorithm_mkey, algorithm_auth and algorithm_mac. */
  datatype Cipher = Cipher(kx: KeyExchange, certAuth: bool, aead: bool)

  /** Early data offered, what the ServerHello settled, CertificateRequest. */
  datatype Facts = Facts(earlyOffered: bool, resumed: bool, version: Version, cipher: Cipher, statusExpected: bool,
                         ticketExpected: bool, nextProto: bool, channelId: bool, certRequest: bool) {
    predicate UsesCert() { cipher.certAuth }

    predicate RequiresSke() { cipher.kx == Ecdhe }
  }

  const NOTHING_YET := Facts(false, false, Ssl30, Cipher(Rsa, false, false), false, false, false, false, false)

  /** What a ServerHello settles; tls13 leads to the TLS 1.3 machine. */
  datatype Settled = Settled(tls13: bool, resumed: bool, version: Version, cipher: Cipher, statusExpected: bool,
                             ticketExpected: bool, nextProto: bool, channelId: bool)

  datatype Verdict = Valid | Invalid | Retry

  /**
   What one call of a do_ function finds outside the model: what verifying the certificate, a signature or
   the Finished message comes to, whether all else that can fail in it succeeds, whether a callback asks to
   be called again, and the choices named.
   */
  datatype Choice = Choice(ok: bool, retry: bool, verdict: Verdict, signatureOk: bool, finishedMatches: bool,
                           settled: Settled, offerEarly: bool, hasCert: bool, emptyTicket: bool, falseStartOn: bool,
                           protocolOk: bool)

  /** SSL_HANDSHAKE, with the messages read so far and not yet consumed. */
  datatype Hs = Hs(state: State, dtls: bool, inbox: seq<MsgType>, facts: Facts)

  /** The message an event is the taking of. */
  function Message(e: Event): seq<MsgType> {
    if e.GotHelloVerifyRequest? then [HelloVerifyRequest]
    else if e.GotServerHello? then [ServerHello]
    else if e.GotCertificate? then [Certificate]
    else if e.GotCertificateStatus? then [CertificateStatus]
    else if e.GotServerKeyExchange? then [ServerKeyExchange]
    else if e.GotCertificateRequest? then [CertificateRequest]
    else if e.GotServerHelloDone? then [ServerHelloDone]
    else if e.GotSessionTicket? then [NewSessionTicket]
    else if e.VerifiedFinished? then [Finished]
    else []
  }

  // ---- The do_ functions ------------------------------------------------------------------------

  function To(hs: Hs, state: State, events: seq<Event>): Outcome<Hs, Event> {
    Outcome(hs.(state := state), Ok, [events])
  }

  function Stay(hs: Hs, wait: Wait): Outcome<Hs, Event> {
    Outcome(hs, wait, [])
  }

  /** next_message. */
  function Consume(hs: Hs): Hs {
    hs.(inbox := Rest(hs.inbox))
  }

  function AfterStartConnect(hs: Hs, c: Choice): (out: Outcome<Hs, Event>)
    ensures Takes(hs.inbox, out.hs.inbox, out.did, Message)
  {
    if !c.ok then Stay(hs, Error)
    else To(hs, EnterEarlyData, [SentClientHello]).(wait := Flush)
  }

  function AfterEnterEarlyData(hs: Hs, c: Choice): (out: Outcome<Hs, Event>)
    ensures Takes(hs.inbox, out.hs.inbox, out.did, Message)
  {
    if hs.dtls then To(hs, ReadHelloVerifyRequest, [])
    else if !c.offerEarly then Outcome(hs.(state := ReadServerHello), Ok, [[], []])
    else if !c.ok then Stay(hs, Error)
    else
      Outcome(hs.(state := ReadServerHello, facts := hs.facts.(earlyOffered := true)), EarlyReturn, [[SentEarlyCcs], []])
  }

  function AfterReadHelloVerifyRequest(hs: Hs, c: Choice): (out: Outcome<Hs, Event>)
    ensures Takes(hs.inbox, out.hs.inbox, out.did, Message)
  {
    if hs.inbox == [] then Stay(hs, ReadMessage)
    else if !Shows(hs.inbox, HelloVerifyRequest) then To(hs, ReadServerHello, [])
    else if !c.ok then Stay(hs, Error)
    else To(Consume(hs), ReadServerHello, [GotHelloVerifyRequest, ResentClientHello]).(wait := Flush)
  }

  function AfterReadServerHello(hs: Hs, c: Choice): (out: Outcome<Hs, Event>)
    ensures Takes(hs.inbox, out.hs.inbox, out.did, Message)
  {
    if hs.inbox == [] then Stay(hs, ReadMessage)
    else if !Shows(hs.inbox, ServerHello) || !c.ok then Stay(hs, Error)
    else if c.settled.tls13 then To(hs, Tls13, [])
    else if hs.facts.earlyOffered then Stay(hs, Error)
    else
      var s := c.settled;
      var facts := hs.facts.(resumed := s.resumed, version := s.version, cipher := s.cipher,
                             statusExpected := s.statusExpected, ticketExpected := s.ticketExpected,
                             nextProto := s.nextProto, channelId := s.channelId);
      To(Consume(hs).(facts := facts), if s.resumed then ReadSessionTicket else ReadServerCertificate, [GotServerHello])
  }

  function AfterReadServerCertificate(hs: Hs, c: Choice): (out: Outcome<Hs, Event>)
    ensures Takes(hs.inbox, out.hs.inbox, out.did, Message)
  {
    if !hs.facts.UsesCert() then To(hs, ReadCertificateStatus, [])
    else if hs.inbox == [] then Stay(hs, ReadMessage)
    else if !Shows(hs.inbox, Certificate) || !c.ok then Stay(hs, Error)
    else To(Consume(hs), ReadCertificateStatus, [GotCertificate])
  }

  function AfterReadCertificateStatus(hs: Hs, c: Choice): (out: Outcome<Hs, Event>)
    ensures Takes(hs.inbox, out.hs.inbox, out.did, Message)
  {
    if !hs.facts.statusExpected then To(hs, VerifyServerCertificate, [])
    else if hs.inbox == [] then Stay(hs, ReadMessage)
    else if !Shows(hs.inbox, CertificateStatus) then To(hs, VerifyServerCertificate, [])
    else if !c.ok then Stay(hs, Error)
    else To(Consume(hs), VerifyServerCertificate, [GotCertificateStatus])
  }

  function AfterVerifyServerCertificate(hs: Hs, c: Choice): (out: Outcome<Hs, Event>)
    ensures Takes(hs.inbox, out.hs.inbox, out.did, Message)
  {
    if !hs.facts.UsesCert() then To(hs, ReadServerKeyExchange, [])
    else
      match c.verdict
      case Valid => To(hs, ReadServerKeyExchange, [CheckedCertificate])
      case Invalid => Stay(hs, Error)
      case Retry => Stay(hs, Paused)
  }

  function AfterReadServerKeyExchange(hs: Hs, c: Choice): (out: Outcome<Hs, Event>)
    ensures Takes(hs.inbox, out.hs.inbox, out.did, Message)
  {
    if hs.inbox == [] then Stay(hs, ReadMessage)
    else if !Shows(hs.inbox, ServerKeyExchange) then
      if hs.facts.RequiresSke() then Stay(hs, Error) else To(hs, ReadCertificateRequest, [])
    else if !c.ok || hs.facts.cipher.kx == Rsa || (hs.facts.UsesCert() && !c.signatureOk) then Stay(hs, Error)
    else To(Consume(hs), ReadCertificateRequest, [GotServerKeyExchange])
  }

  function AfterReadCertificateRequest(hs: Hs, c: Choice): (out: Outcome<Hs, Event>)
    ensures Takes(hs.inbox, out.hs.inbox, out.did, Message)
  {
    if !hs.facts.UsesCert() then To(hs, ReadServerHelloDone, [])
    else if hs.inbox == [] then Stay(hs, ReadMessage)
    else if Shows(hs.inbox, ServerHelloDone) then To(hs, ReadServerHelloDone, [])
    else if !Shows(hs.inbox, CertificateRequest) || !c.ok then Stay(hs, Error)
    else To(Consume(hs).(facts := hs.facts.(certRequest := true)), ReadServerHelloDone, [GotCertificateRequest])
  }

  function AfterReadServerHelloDone(hs: Hs, c: Choice): (out: Outcome<Hs, Event>)
    ensures Takes(hs.inbox, out.hs.inbox, out.did, Message)
  {
    if hs.inbox == [] then Stay(hs, ReadMessage)
    else if !Shows(hs.inbox, ServerHelloDone) || !c.ok then Stay(hs, Error)
    else To(Consume(hs), SendClientCertificate, [GotServerHelloDone])
  }

  function AfterSendClientCertificate(hs: Hs, c: Choice): (out: Outcome<Hs, Event>)
    ensures Takes(hs.inbox, out.hs.inbox, out.did, Message)
  {
    if !hs.facts.certRequest then To(hs, SendClientKeyExchange, [])
    else if c.retry then Stay(hs, Paused)
    else if !c.ok then Stay(hs, Error)
    else To(hs, SendClientKeyExchange, if !c.hasCert && hs.facts.version == Ssl30 then [] else [SentCertificate])
  }

  function AfterSendClientKeyExchange(hs: Hs, c: Choice): (out: Outcome<Hs, Event>)
    ensures Takes(hs.inbox, out.hs.inbox, out.did, Message)
  {
    if !c.ok then Stay(hs, Error) else To(hs, SendClientCertificateVerify, [SentClientKeyExchange])
  }

  function AfterSendClientCertificateVerify(hs: Hs, c: Choice): (out: Outcome<Hs, Event>)
    ensures Takes(hs.inbox, out.hs.inbox, out.did, Message)
  {
    if !hs.facts.certRequest || !c.hasCert then To(hs, SendClientFinished, [])
    else if c.retry then Stay(hs, Paused)
    else if !c.ok then Stay(hs, Error)
    else To(hs, SendClientFinished, [SentCertificateVerify])
  }

  function Extras(f: Facts): seq<Event> {
    if f.nextProto && f.channelId then [SentNextProto, SentChannelId]
    else if f.nextProto then [SentNextProto]
    else if f.channelId then [SentChannelId]
    else []
  }

  /** NextProto, ChannelID and Finished go out under the new key. */
  function AfterSendClientFinished(hs: Hs, c: Choice): (out: Outcome<Hs, Event>)
    ensures Takes(hs.inbox, out.hs.inbox, out.did, Message)
  {
    if hs.facts.channelId && c.retry then Stay(hs, Paused)
    else if !c.ok then Stay(hs, Error)
    else Outcome(hs.(state := FinishFlight), Flush, [[SentCcs], [ChangedWriteKey], Extras(hs.facts), [SentFinished]])
  }

  /** can_false_start; protocolOk: ALPN or NPN has settled on a protocol, or none is insisted on. */
  predicate CanFalseStart(hs: Hs, c: Choice) {
    !hs.dtls && hs.facts.version == Tls12 && hs.facts.cipher.kx == Ecdhe && hs.facts.cipher.aead && c.protocolOk
  }

  /** The early return is False Start: the mode is on and this is the connection's first handshake. */
  function AfterFinishFlight(hs: Hs, c: Choice): (out: Outcome<Hs, Event>)
    ensures Takes(hs.inbox, out.hs.inbox, out.did, Message)
  {
    if hs.facts.resumed then Outcome(hs.(state := FinishClientHandshake), Ok, [])
    else if !c.ok then Stay(hs, Error)
    else Outcome(hs.(state := ReadSessionTicket), if c.falseStartOn && CanFalseStart(hs, c) then EarlyReturn else Ok, [])
  }

  function AfterReadSessionTicket(hs: Hs, c: Choice): (out: Outcome<Hs, Event>)
    ensures Takes(hs.inbox, out.hs.inbox, out.did, Message)
  {
    if !hs.facts.ticketExpected then To(hs, ProcessChangeCipherSpec, []).(wait := ReadChangeCipherSpec)
    else if hs.inbox == [] then Stay(hs, ReadMessage)
    else if !Shows(hs.inbox, NewSessionTicket) || !c.ok then Stay(hs, Error)
    else
      To(Consume(hs).(facts := hs.facts.(ticketExpected := !c.emptyTicket)), ProcessChangeCipherSpec, [GotSessionTicket])
      .(wait := ReadChangeCipherSpec)
  }

  function AfterProcessChangeCipherSpec(hs: Hs, c: Choice): (out: Outcome<Hs, Event>)
    ensures Takes(hs.inbox, out.hs.inbox, out.did, Message)
  {
    if !c.ok then Stay(hs, Error) else To(hs, ReadServerFinished, [ChangedReadKey])
  }

  /** ssl_get_finished, then the turn that depends on resumption. */
  function AfterReadServerFinished(hs: Hs, c: Choice): (out: Outcome<Hs, Event>)
    ensures Takes(hs.inbox, out.hs.inbox, out.did, Message)
  {
    if hs.inbox == [] then Stay(hs, ReadMessage)
    else if !Shows(hs.inbox, Finished) || !c.ok || !c.finishedMatches then Stay(hs, Error)
    else To(Consume(hs), if hs.facts.resumed then SendClientFinished else FinishClientHandshake, [VerifiedFinished])
  }

  function AfterFinishClientHandshake(hs: Hs, c: Choice): (out: Outcome<Hs, Event>)
    ensures Takes(hs.inbox, out.hs.inbox, out.did, Message)
  {
    if c.ok then Outcome(hs.(state := Done), Ok, []) else Stay(hs, Error)
  }

  /** The switch of ssl_client_handshake; the TLS 1.3 machine is not part of the model. */
  function Advance(hs: Hs, c: Choice): (out: Outcome<Hs, Event>)
    ensures Takes(hs.inbox, out.hs.inbox, out.did, Message)
  {
    match hs.state
    case StartConnect => AfterStartConnect(hs, c)
    case EnterEarlyData => AfterEnterEarlyData(hs, c)
    case ReadHelloVerifyRequest => AfterReadHelloVerifyRequest(hs, c)
    case ReadServerHello => AfterReadServerHello(hs, c)
    case Tls13 => Stay(hs, Error)
    case ReadServerCertificate => AfterReadServerCertificate(hs, c)
    case ReadCertificateStatus => AfterReadCertificateStatus(hs, c)
    case VerifyServerCertificate => AfterVerifyServerCertificate(hs, c)
    case ReadServerKeyExchange => AfterReadServerKeyExchange(hs, c)
    case ReadCertificateRequest => AfterReadCertificateRequest(hs, c)
    case ReadServerHelloDone => AfterReadServerHelloDone(hs, c)
    case SendClientCertificate => AfterSendClientCertificate(hs, c)
    case SendClientKeyExchange => AfterSendClientKeyExchange(hs, c)
    case SendClientCertificateVerify => AfterSendClientCertificateVerify(hs, c)
    case SendClientFinished => AfterSendClientFinished(hs, c)
    case FinishFlight => AfterFinishFlight(hs, c)
    case ReadSessionTicket => AfterReadSessionTicket(hs, c)
    case ProcessChangeCipherSpec => AfterProcessChangeCipherSpec(hs, c)
    case ReadServerFinished => AfterReadServerFinished(hs, c)
    case FinishClientHandshake => AfterFinishClientHandshake(hs, c)
    case Done => Stay(hs, Ok)
  }

  // ---- Runs -------------------------------------------------------------------------------------

  function Client(dtls: bool): Side<Hs, Choice, Event> {
    Side(Hs(StartConnect, dtls, [], NOTHING_YET), (hs, c) => Advance(hs, c), (hs: Hs) => hs.state.Done?,
         (hs: Hs) => hs.inbox, (hs: Hs, msgs: seq<MsgType>) => hs.(inbox := hs.inbox + msgs),
         GotCcs, Message)
  }

  // ---- What the log must be ---------------------------------------------------------------------

  predicate Either(entry: seq<Event>, events: seq<Event>) {
    entry == [] || entry == events
  }

  function If(b: bool, e: Event): seq<Event> {
    if b then [e] else []
  }

  /** Entry n of the log up to the ServerHello. */
  predicate OpeningEntry(f: Facts, n: int, entry: seq<Event>) {
    if n == 0 then entry == [SentClientHello]
    else if n == 1 then entry == If(f.earlyOffered, SentEarlyCcs)
    else if n == 2 then Either(entry, [GotHelloVerifyRequest, ResentClientHello])
    else n == 3 && entry == [GotServerHello] && !f.earlyOffered
  }

  /** Entry n of the eight that both kinds of handshake have, in their respective orders. */
  predicate ReadEntry(f: Facts, n: int, entry: seq<Event>) {
    if n == 0 then Either(entry, [GotSessionTicket])
    else if n == 1 then entry == [GotCcs]
    else if n == 2 then entry == [ChangedReadKey]
    else n == 3 && entry == [VerifiedFinished]
  }

  predicate WriteEntry(f: Facts, n: int, entry: seq<Event>) {
    if n == 0 then entry == [SentCcs]
    else if n == 1 then entry == [ChangedWriteKey]
    else if n == 2 then entry == Extras(f)
    else n == 3 && entry == [SentFinished]
  }

  /** Entry n of a full handshake after the ServerHello, up to the ChangeCipherSpec. */
  predicate FullEntry(f: Facts, n: int, entry: seq<Event>) {
    if n == 4 then entry == If(f.UsesCert(), GotCertificate)
    else if n == 5 then Either(entry, [GotCertificateStatus])
    else if n == 6 then entry == If(f.UsesCert(), CheckedCertificate)
    else if n == 7 then
      Either(entry, [GotServerKeyExchange]) && (f.RequiresSke() ==> |entry| == 1) && (f.cipher.kx == Rsa ==> entry == [])
    else if n == 8 then entry == If(f.certRequest, GotCertificateRequest) && (f.certRequest ==> f.UsesCert())
    else if n == 9 then entry == [GotServerHelloDone]
    else if n == 10 then
      Either(entry, [SentCertificate]) && (|entry| == 1 ==> f.certRequest)
      && (f.certRequest && f.version != Ssl30 ==> |entry| == 1)
    else if n == 11 then entry == [SentClientKeyExchange]
    else n == 12 && Either(entry, [SentCertificateVerify]) && (|entry| == 1 ==> f.certRequest)
  }

  predicate EntryOk(f: Facts, n: int, entry: seq<Event>) {
    if n <= 3 then OpeningEntry(f, n, entry)
    else if f.resumed then if n <= 7 then ReadEntry(f, n - 4, entry) else WriteEntry(f, n - 8, entry)
    else if n <= 12 then FullEntry(f, n, entry)
    else if n <= 16 then WriteEntry(f, n - 13, entry)
    else ReadEntry(f, n - 17, entry)
  }

  predicate LogOk(f: Facts, log: seq<seq<Event>>) {
    forall n | 0 <= n < |log| :: EntryOk(f, n, log[n])
  }

  /** How many entries the log has on reaching a state. */
  function Entries(state: State, resumed: bool, wait: Wait): nat {
    match state
    case StartConnect => 0
    case EnterEarlyData => 1
    case ReadHelloVerifyRequest => 2
    case ReadServerHello => 3
    case Tls13 => 4
    case ReadServerCertificate => 4
    case ReadCertificateStatus => 5
    case VerifyServerCertificate => 6
    case ReadServerKeyExchange => 7
    case ReadCertificateRequest => 8
    case ReadServerHelloDone => 9
    case SendClientCertificate => 10
    case SendClientKeyExchange => 11
    case SendClientCertificateVerify => 12
    case SendClientFinished => if resumed then 8 else 13
    case FinishFlight => if resumed then 12 else 17
    case ReadSessionTicket => if resumed then 4 else 17
    case ProcessChangeCipherSpec => (if resumed then 5 else 18) + if wait == ReadChangeCipherSpec then 0 else 1
    case ReadServerFinished => if resumed then 7 else 20
    case FinishClientHandshake => if resumed then 12 else 21
    case Done => if resumed then 12 else 21
  }

  /** States of the full handshake alone. */
  predicate FullOnly(state: State) {
    || state.ReadServerCertificate? || state.ReadCertificateStatus? || state.VerifyServerCertificate?
    || state.ReadServerKeyExchange? || state.ReadCertificateRequest? || state.ReadServerHelloDone?
    || state.SendClientCertificate? || state.SendClientKeyExchange? || state.SendClientCertificateVerify?
  }

  /** Which facts go with how many entries. */
  predicate FactsOk(hs: Hs, n: int) {
    && (n <= 1 ==> hs.facts == NOTHING_YET)
    && (n <= 3 ==> hs.facts == NOTHING_YET.(earlyOffered := hs.facts.earlyOffered))
    && (n <= 8 || hs.facts.resumed ==> !hs.facts.certRequest)
    && (hs.facts.resumed ==> !FullOnly(hs.state))
  }

  /** The log is the one of the state reached. */
  predicate Inv(x: Config<Hs, Event>) {
    && (x.running ==> x.wait == Ok)
    && (x.wait == ReadChangeCipherSpec ==> x.hs.state.ProcessChangeCipherSpec?)
    && (!x.hs.state.Tls13? ==>
          && |x.log| == Entries(x.hs.state, x.hs.facts.resumed, x.wait)
          && FactsOk(x.hs, |x.log|) && LogOk(x.hs.facts, x.log))
  }

  // ---- Every run keeps to it ----------------------------------------------------------------------

  predicate Judged(f: Facts, n: int, did: seq<seq<Event>>) {
    && |did| <= 4
    && (|did| > 0 ==> EntryOk(f, n, did[0])) && (|did| > 1 ==> EntryOk(f, n + 1, did[1]))
    && (|did| > 2 ==> EntryOk(f, n + 2, did[2])) && (|did| > 3 ==> EntryOk(f, n + 3, did[3]))
  }

  /** The facts that change when there are n entries are not what those are judged by. */
  predicate Kept(f: Facts, g: Facts, n: int) {
    || (g == f.(ticketExpected := g.ticketExpected, certRequest := g.certRequest)
        && (g.certRequest == f.certRequest || n == 8))
    || (n == 3 && g.earlyOffered == f.earlyOffered)
    || (n == 1 && g == f.(earlyOffered := g.earlyOffered))
  }

  /** What is left to do at most; resumption decides the order of the last states. */
  function Rank(state: State, resumed: bool): nat {
    match state
    case StartConnect => 21
    case EnterEarlyData => 20
    case ReadHelloVerifyRequest => 19
    case ReadServerHello => 18
    case ReadServerCertificate => 17
    case ReadCertificateStatus => 16
    case VerifyServerCertificate => 15
    case ReadServerKeyExchange => 14
    case ReadCertificateRequest => 13
    case ReadServerHelloDone => 12
    case SendClientCertificate => 11
    case SendClientKeyExchange => 10
    case SendClientCertificateVerify => 9
    case SendClientFinished => if resumed then 3 else 8
    case FinishFlight => if resumed then 2 else 7
    case ReadSessionTicket => 6
    case ProcessChangeCipherSpec => 5
    case ReadServerFinished => 4
    case FinishClientHandshake => 1
    case Tls13 => 0
    case Done => 0
  }

  /** A step that changes the state goes down in rank, and the choice about resumption is the ServerHello's. */
  predicate Drops(hs: Hs, out: Outcome<Hs, Event>) {
    && (out.hs.state.Done? ==> out.wait == Ok)
    && (out.hs.facts.resumed == hs.facts.resumed || hs.state.ReadServerHello?)
    && (out.wait == EarlyReturn ==> hs.state.EnterEarlyData? || hs.state.FinishFlight?)
    && (if out.hs.state == hs.state then out.wait != Ok
        else Rank(out.hs.state, out.hs.facts.resumed) < Rank(hs.state, hs.facts.resumed))
  }

  /** A step waits, without trace, or adds the entries of the state it moves to. */
  predicate Moves(hs: Hs, n: int, out: Outcome<Hs, Event>) {
    if out.hs.state == hs.state then
      out == Stay(hs, out.wait) && out.wait != ReadChangeCipherSpec
      && (hs.state.ProcessChangeCipherSpec? ==> out.wait != Ok)
    else if out.hs.state.Tls13? then out.wait != ReadChangeCipherSpec
    else
      && n + |out.did| == Entries(out.hs.state, out.hs.facts.resumed, out.wait)
      && FactsOk(out.hs, n + |out.did|) && Kept(hs.facts, out.hs.facts, n)
      && Judged(out.hs.facts, n, out.did)
      && (out.wait == ReadChangeCipherSpec ==> out.hs.state.ProcessChangeCipherSpec?)
  }

  /** The part of the invariant that a step needs. */
  predicate Here(hs: Hs, n: int) {
    n == Entries(hs.state, hs.facts.resumed, Ok) && FactsOk(hs, n)
  }

  lemma StartConnectMoves(hs: Hs, n: int, c: Choice)
    requires Here(hs, n) && hs.state.StartConnect?
    ensures Moves(hs, n, AfterStartConnect(hs, c)) && Drops(hs, AfterStartConnect(hs, c))
  {
    hide Takes, FullEntry, WriteEntry, ReadEntry;
  }

  lemma EnterEarlyDataMoves(hs: Hs, n: int, c: Choice)
    requires Here(hs, n) && hs.state.EnterEarlyData?
    ensures Moves(hs, n, AfterEnterEarlyData(hs, c)) && Drops(hs, AfterEnterEarlyData(hs, c))
  {
    hide Takes, FullEntry, WriteEntry, ReadEntry;
  }

  lemma ReadHelloVerifyRequestMoves(hs: Hs, n: int, c: Choice)
    requires Here(hs, n) && hs.state.ReadHelloVerifyRequest?
    ensures Moves(hs, n, AfterReadHelloVerifyRequest(hs, c)) && Drops(hs, AfterReadHelloVerifyRequest(hs, c))
  {
    hide Takes, Rest, Shows;
    hide FullEntry, WriteEntry, ReadEntry;
  }

  lemma ReadServerHelloMoves(hs: Hs, n: int, c: Choice)
    requires Here(hs, n) && hs.state.ReadServerHello?
    ensures Moves(hs, n, AfterReadServerHello(hs, c)) && Drops(hs, AfterReadServerHello(hs, c))
  {
    hide Takes, Rest, Shows;
    hide FullEntry, WriteEntry, ReadEntry;
  }

  lemma ReadServerCertificateMoves(hs: Hs, n: int, c: Choice)
    requires Here(hs, n) && hs.state.ReadServerCertificate?
    ensures Moves(hs, n, AfterReadServerCertificate(hs, c)) && Drops(hs, AfterReadServerCertificate(hs, c))
  {
    assert n == 4 && !hs.facts.resumed;
    hide Takes, Rest, Shows;
    hide OpeningEntry, WriteEntry, ReadEntry;
  }

  lemma ReadCertificateStatusMoves(hs: Hs, n: int, c: Choice)
    requires Here(hs, n) && hs.state.ReadCertificateStatus?
    ensures Moves(hs, n, AfterReadCertificateStatus(hs, c)) && Drops(hs, AfterReadCertificateStatus(hs, c))
  {
    assert n == 5 && !hs.facts.resumed;
    hide Takes, Rest, Shows;
    hide OpeningEntry, WriteEntry, ReadEntry;
  }

  lemma VerifyServerCertificateMoves(hs: Hs, n: int, c: Choice)
    requires Here(hs, n) && hs.state.VerifyServerCertificate?
    ensures Moves(hs, n, AfterVerifyServerCertificate(hs, c)) && Drops(hs, AfterVerifyServerCertificate(hs, c))
  {
    assert n == 6 && !hs.facts.resumed;
    hide Takes, OpeningEntry, WriteEntry, ReadEntry;
  }

  lemma ReadServerKeyExchangeDrops(hs: Hs, c: Choice)
    requires hs.state.ReadServerKeyExchange?
    ensures Drops(hs, AfterReadServerKeyExchange(hs, c))
  {
    hide Takes, Shows, Rest;
  }

  lemma ReadServerKeyExchangeMoves(hs: Hs, n: int, c: Choice)
    requires Here(hs, n) && hs.state.ReadServerKeyExchange?
    ensures Moves(hs, n, AfterReadServerKeyExchange(hs, c)) && Drops(hs, AfterReadServerKeyExchange(hs, c))
  {
    hide Takes, Rest, Shows, OpeningEntry, WriteEntry, ReadEntry;
    ReadServerKeyExchangeDrops(hs, c);
    hide Drops;
    var out := AfterReadServerKeyExchange(hs, c);
    if out.hs.state != hs.state {
      assert out.hs.facts == hs.facts && |out.did| == 1 && n == 7 && !hs.facts.resumed;
      assert FullEntry(hs.facts, n, out.did[0]);
      hide FullEntry;
    }
  }

  lemma ReadCertificateRequestDrops(hs: Hs, c: Choice)
    requires hs.state.ReadCertificateRequest?
    ensures Drops(hs, AfterReadCertificateRequest(hs, c))
  {
    hide Takes, Shows, Rest;
  }

  lemma ReadCertificateRequestMoves(hs: Hs, n: int, c: Choice)
    requires Here(hs, n) && hs.state.ReadCertificateRequest?
    ensures Moves(hs, n, AfterReadCertificateRequest(hs, c)) && Drops(hs, AfterReadCertificateRequest(hs, c))
  {
    hide Takes, Rest, Shows;
    ReadCertificateRequestDrops(hs, c);
    assert n == 8 && !hs.facts.resumed;
    hide Drops, OpeningEntry, WriteEntry, ReadEntry;
  }

  lemma ReadServerHelloDoneMoves(hs: Hs, n: int, c: Choice)
    requires Here(hs, n) && hs.state.ReadServerHelloDone?
    ensures Moves(hs, n, AfterReadServerHelloDone(hs, c)) && Drops(hs, AfterReadServerHelloDone(hs, c))
  {
    assert n == 9 && !hs.facts.resumed;
    hide Takes, Rest, Shows;
    hide OpeningEntry, WriteEntry, ReadEntry;
  }

  lemma SendClientCertificateMoves(hs: Hs, n: int, c: Choice)
    requires Here(hs, n) && hs.state.SendClientCertificate?
    ensures Moves(hs, n, AfterSendClientCertificate(hs, c)) && Drops(hs, AfterSendClientCertificate(hs, c))
  {
    assert n == 10 && !hs.facts.resumed;
    hide Takes, OpeningEntry, WriteEntry, ReadEntry;
  }

  lemma SendClientKeyExchangeMoves(hs: Hs, n: int, c: Choice)
    requires Here(hs, n) && hs.state.SendClientKeyExchange?
    ensures Moves(hs, n, AfterSendClientKeyExchange(hs, c)) && Drops(hs, AfterSendClientKeyExchange(hs, c))
  {
    assert n == 11 && !hs.facts.resumed;
    hide Takes, OpeningEntry, WriteEntry, ReadEntry;
  }

  lemma SendClientCertificateVerifyMoves(hs: Hs, n: int, c: Choice)
    requires Here(hs, n) && hs.state.SendClientCertificateVerify?
    ensures Moves(hs, n, AfterSendClientCertificateVerify(hs, c)) && Drops(hs, AfterSendClientCertificateVerify(hs, c))
  {
    hide Takes, OpeningEntry, WriteEntry, ReadEntry;
    var out := AfterSendClientCertificateVerify(hs, c);
    if out.hs.state != hs.state {
      assert out.hs.facts == hs.facts && |out.did| == 1 && n == 12 && !hs.facts.resumed;
      assert FullEntry(hs.facts, n, out.did[0]);
      hide FullEntry;
    }
  }

  lemma SendClientFinishedMoves(hs: Hs, n: int, c: Choice)
    requires Here(hs, n) && hs.state.SendClientFinished?
    ensures Moves(hs, n, AfterSendClientFinished(hs, c)) && Drops(hs, AfterSendClientFinished(hs, c))
  {
    hide Takes, OpeningEntry, FullEntry, ReadEntry, Extras;
  }

  lemma FinishFlightMoves(hs: Hs, n: int, c: Choice)
    requires Here(hs, n) && hs.state.FinishFlight?
    ensures Moves(hs, n, AfterFinishFlight(hs, c)) && Drops(hs, AfterFinishFlight(hs, c))
  {
    hide Takes, EntryOk;
  }

  lemma ReadSessionTicketMoves(hs: Hs, n: int, c: Choice)
    requires Here(hs, n) && hs.state.ReadSessionTicket?
    ensures Moves(hs, n, AfterReadSessionTicket(hs, c)) && Drops(hs, AfterReadSessionTicket(hs, c))
  {
    hide Takes, Rest, Shows;
    hide OpeningEntry, FullEntry, WriteEntry;
  }

  lemma ProcessChangeCipherSpecMoves(hs: Hs, n: int, c: Choice)
    requires Here(hs, n) && hs.state.ProcessChangeCipherSpec?
    ensures Moves(hs, n, AfterProcessChangeCipherSpec(hs, c)) && Drops(hs, AfterProcessChangeCipherSpec(hs, c))
  {
    hide Takes, OpeningEntry, FullEntry, WriteEntry;
  }

  lemma ReadServerFinishedMoves(hs: Hs, n: int, c: Choice)
    requires Here(hs, n) && hs.state.ReadServerFinished?
    ensures Moves(hs, n, AfterReadServerFinished(hs, c)) && Drops(hs, AfterReadServerFinished(hs, c))
  {
    hide Takes, Rest, Shows;
    hide OpeningEntry, FullEntry, WriteEntry;
  }

  lemma FinishClientHandshakeMoves(hs: Hs, n: int, c: Choice)
    requires Here(hs, n) && hs.state.FinishClientHandshake?
    ensures Moves(hs, n, AfterFinishClientHandshake(hs, c)) && Drops(hs, AfterFinishClientHandshake(hs, c))
  {
    hide Takes, EntryOk;
  }

  lemma AdvanceMoves(hs: Hs, n: int, c: Choice)
    requires Here(hs, n) && !hs.state.Tls13? && !hs.state.Done?
    ensures Moves(hs, n, Advance(hs, c)) && Drops(hs, Advance(hs, c))
  {
    hide Takes;
    hide Moves;
    hide Drops;
    hide Here;
    hide AfterStartConnect, AfterEnterEarlyData, AfterReadHelloVerifyRequest, AfterReadServerHello,
      AfterReadServerCertificate, AfterReadCertificateStatus, AfterVerifyServerCertificate,
      AfterReadServerKeyExchange, AfterReadCertificateRequest, AfterReadServerHelloDone, AfterSendClientCertificate,
      AfterSendClientKeyExchange, AfterSendClientCertificateVerify, AfterSendClientFinished, AfterFinishFlight,
      AfterReadSessionTicket, AfterProcessChangeCipherSpec, AfterReadServerFinished, AfterFinishClientHandshake;
    match hs.state {
      case StartConnect => StartConnectMoves(hs, n, c);
      case EnterEarlyData => EnterEarlyDataMoves(hs, n, c);
      case ReadHelloVerifyRequest => ReadHelloVerifyRequestMoves(hs, n, c);
      case ReadServerHello => ReadServerHelloMoves(hs, n, c);
      case ReadServerCertificate => ReadServerCertificateMoves(hs, n, c);
      case ReadCertificateStatus => ReadCertificateStatusMoves(hs, n, c);
      case VerifyServerCertificate => VerifyServerCertificateMoves(hs, n, c);
      case ReadServerKeyExchange => ReadServerKeyExchangeMoves(hs, n, c);
      case ReadCertificateRequest => ReadCertificateRequestMoves(hs, n, c);
      case ReadServerHelloDone => ReadServerHelloDoneMoves(hs, n, c);
      case SendClientCertificate => SendClientCertificateMoves(hs, n, c);
      case SendClientKeyExchange => SendClientKeyExchangeMoves(hs, n, c);
      case SendClientCertificateVerify => SendClientCertificateVerifyMoves(hs, n, c);
      case SendClientFinished => SendClientFinishedMoves(hs, n, c);
      case FinishFlight => FinishFlightMoves(hs, n, c);
      case ReadSessionTicket => ReadSessionTicketMoves(hs, n, c);
      case ProcessChangeCipherSpec => ProcessChangeCipherSpecMoves(hs, n, c);
      case ReadServerFinished => ReadServerFinishedMoves(hs, n, c);
      case FinishClientHandshake => FinishClientHandshakeMoves(hs, n, c);
      case Tls13 =>
      case Done =>
    }
  }

  lemma SameJudgement(f: Facts, g: Facts, n: int, k: nat, entry: seq<Event>)
    requires Kept(f, g, n) && k < n
    ensures EntryOk(f, k, entry) == EntryOk(g, k, entry)
  {
    if k > 3 {
      assert Extras(f) == Extras(g);
      hide Extras;
      hide Either;
    }
  }

  lemma LogGrows(f: Facts, g: Facts, log: seq<seq<Event>>, did: seq<seq<Event>>)
    requires LogOk(f, log) && Kept(f, g, |log|) && Judged(g, |log|, did)
    ensures LogOk(g, log + did)
  {
    hide EntryOk;
    hide Kept;
    forall n | 0 <= n < |log + did| ensures EntryOk(g, n, (log + did)[n]) {
      if n < |log| {
        assert (log + did)[n] == log[n];
        SameJudgement(f, g, |log|, n, log[n]);
      } else {
        assert (log + did)[n] == did[n - |log|];
      }
    }
  }

  /** What a turn of the loop makes of a moment of a run. */
  lemma TurnIs(dtls: bool, x: Config<Hs, Event>, c: Choice)
    ensures var out := Advance(x.hs, c);
            Next(Client(dtls), x, Machine(c)) ==
              Config(out.hs, out.wait, out.wait == Ok && !out.hs.state.Done?, x.log + out.did)
  {
    hide Advance;
  }

  lemma Tls13Stays(hs: Hs, c: Choice)
    requires hs.state.Tls13?
    ensures Advance(hs, c) == Stay(hs, Error)
  {
  }

  lemma MachineKeepsInv(dtls: bool, x: Config<Hs, Event>, c: Choice)
    requires Inv(x) && Enabled(Client(dtls), x, Machine(c))
    ensures Inv(Next(Client(dtls), x, Machine(c)))
  {
    hide Next, Advance, LogOk, Judged, Kept, FactsOk;
    TurnIs(dtls, x, c);
    if x.hs.state.Tls13? {
      Tls13Stays(x.hs, c);
    } else {
      var out := Advance(x.hs, c);
      AdvanceMoves(x.hs, |x.log|, c);
      if out.did == [] {
        assert x.log + out.did == x.log;
      }
      if Kept(x.hs.facts, out.hs.facts, |x.log|) && Judged(out.hs.facts, |x.log|, out.did) {
        LogGrows(x.hs.facts, out.hs.facts, x.log, out.did);
      }
    }
  }

  lemma DriverKeepsInv(dtls: bool, x: Config<Hs, Event>, io: Io)
    requires Inv(x) && Enabled(Client(dtls), x, Driver(io))
    ensures Inv(Next(Client(dtls), x, Driver(io)))
  {
    hide LogOk, Advance;
    var y := Next(Client(dtls), x, Driver(io));
    if x.wait == ReadChangeCipherSpec && y.running {
      LogGrows(x.hs.facts, x.hs.facts, x.log, [[GotCcs]]);
    }
  }

  lemma {:induction false} RunKeepsInv(dtls: bool, run: seq<Config<Hs, Event>>, steps: seq<Step<Choice>>, i: nat)
    requires IsRun(Client(dtls), run, steps) && i < |run|
    ensures Inv(run[i])
  {
    if i > 0 {
      RunKeepsInv(dtls, run, steps, i - 1);
      hide Inv, Next;
      if steps[i - 1].Machine? {
        MachineKeepsInv(dtls, run[i - 1], steps[i - 1].choice);
      } else {
        DriverKeepsInv(dtls, run[i - 1], steps[i - 1].io);
      }
    }
  }

  // ---- What a run does, once and in order ---------------------------------------------------------

  /** The entry an event can be in. */
  function Place(f: Facts, e: Event): nat {
    match e
    case SentClientHello => 0
    case SentEarlyCcs => 1
    case GotHelloVerifyRequest => 2
    case ResentClientHello => 2
    case GotServerHello => 3
    case GotCertificate => 4
    case GotCertificateStatus => 5
    case CheckedCertificate => 6
    case GotServerKeyExchange => 7
    case GotCertificateRequest => 8
    case GotServerHelloDone => 9
    case SentCertificate => 10
    case SentClientKeyExchange => 11
    case SentCertificateVerify => 12
    case SentCcs => if f.resumed then 8 else 13
    case ChangedWriteKey => if f.resumed then 9 else 14
    case SentNextProto => if f.resumed then 10 else 15
    case SentChannelId => if f.resumed then 10 else 15
    case SentFinished => if f.resumed then 11 else 16
    case GotSessionTicket => if f.resumed then 4 else 17
    case GotCcs => if f.resumed then 5 else 18
    case ChangedReadKey => if f.resumed then 6 else 19
    case VerifiedFinished => if f.resumed then 7 else 20
  }

  lemma OpeningPlaced(f: Facts, n: int, entry: seq<Event>, e: Event)
    requires n <= 3 && OpeningEntry(f, n, entry) && e in entry
    ensures n == Place(f, e)
  {
  }

  lemma FullPlaced(f: Facts, n: int, entry: seq<Event>, e: Event)
    requires FullEntry(f, n, entry) && e in entry
    ensures n == Place(f, e)
  {
  }

  lemma ReadPlaced(f: Facts, n: int, entry: seq<Event>, e: Event)
    requires ReadEntry(f, n, entry) && e in entry
    ensures (if f.resumed then n + 4 else n + 17) == Place(f, e)
  {
  }

  lemma WritePlaced(f: Facts, n: int, entry: seq<Event>, e: Event)
    requires WriteEntry(f, n, entry) && e in entry
    ensures (if f.resumed then n + 8 else n + 13) == Place(f, e)
  {
  }

  lemma NoTwice(f: Facts, n: int, entry: seq<Event>)
    requires EntryOk(f, n, entry)
    ensures |entry| <= 2 && (|entry| == 2 ==> entry[0] != entry[1])
  {
  }

  lemma CountedOnce(f: Facts, n: int, entry: seq<Event>, e: Event)
    requires EntryOk(f, n, entry) && e in entry
    ensures multiset(entry)[e] == 1
  {
    NoTwice(f, n, entry);
    hide *;
    NoneTwice(entry, e);
  }

  lemma Placed(f: Facts, n: nat, entry: seq<Event>, e: Event)
    requires EntryOk(f, n, entry) && e in entry
    ensures n == Place(f, e)
  {
    hide OpeningEntry, FullEntry, ReadEntry, WriteEntry, Place;
    if n <= 3 {
      OpeningPlaced(f, n, entry, e);
    } else if f.resumed {
      if n <= 7 { ReadPlaced(f, n - 4, entry, e); } else { WritePlaced(f, n - 8, entry, e); }
    } else if n <= 12 {
      FullPlaced(f, n, entry, e);
    } else if n <= 16 {
      WritePlaced(f, n - 13, entry, e);
    } else {
      ReadPlaced(f, n - 17, entry, e);
    }
  }

  /** What every handshake passes through. */
  predicate Needed(f: Facts, e: Event) {
    || e.SentClientHello? || e.GotServerHello?
    || e.GotCcs? || e.ChangedReadKey? || e.VerifiedFinished? || e.SentCcs? || e.ChangedWriteKey? || e.SentFinished?
    || (f.nextProto && e.SentNextProto?) || (f.channelId && e.SentChannelId?)
    || (!f.resumed &&
          (|| e.GotServerHelloDone? || e.SentClientKeyExchange? || (f.UsesCert() && (e.GotCertificate? || e.CheckedCertificate?))
           || (f.RequiresSke() && e.GotServerKeyExchange?) || (f.certRequest && e.GotCertificateRequest?)))
  }

  lemma NeededThere(f: Facts, n: nat, entry: seq<Event>, e: Event)
    requires Needed(f, e) && EntryOk(f, n, entry) && n == Place(f, e)
    ensures e in entry
  {
  }

  function PlaceIn(f: Facts): Event -> nat {
    e => Place(f, e)
  }

  function NeededIn(f: Facts): Event -> bool {
    e => Needed(f, e)
  }

  lemma LogPlaced(f: Facts, log: seq<seq<Event>>)
    requires LogOk(f, log)
    ensures InPlace(log, PlaceIn(f)) && NoneMissing(log, PlaceIn(f), NeededIn(f))
  {
    hide EntryOk, Place, Needed;
    forall n, e | 0 <= n < |log| && e in log[n] ensures PlaceIn(f)(e) == n && multiset(log[n])[e] == 1 {
      Placed(f, n, log[n], e);
      CountedOnce(f, n, log[n], e);
    }
    forall e | NeededIn(f)(e) && PlaceIn(f)(e) < |log| ensures e in log[PlaceIn(f)(e)] {
      NeededThere(f, Place(f, e), log[Place(f, e)], e);
    }
  }

  /**
   In any run, blocked and entered again however often: whatever has happened happened once and in its
   place, and of what is needed nothing is missing before the place the log has reached; at state_done
   nothing needed is missing at all.
   */
  lemma RunInPlace(dtls: bool, run: seq<Config<Hs, Event>>, steps: seq<Step<Choice>>, i: nat)
    requires IsRun(Client(dtls), run, steps) && i < |run| && !run[i].hs.state.Tls13?
    ensures var f, log := run[i].hs.facts, run[i].log;
            && LogOk(f, log) && InPlace(log, PlaceIn(f)) && NoneMissing(log, PlaceIn(f), NeededIn(f))
            && (run[i].hs.state.Done? ==> forall e | Needed(f, e) :: e in Events(log))
  {
    hide IsRun, LogOk, InPlace, NoneMissing;
    RunKeepsInv(dtls, run, steps, i);
    var f, log := run[i].hs.facts, run[i].log;
    LogPlaced(f, log);
    if run[i].hs.state.Done? {
      forall e | Needed(f, e) ensures e in Events(log) {
        assert Place(f, e) < |log|;
        hide Place, Needed;
        IsThere(f, log, e);
      }
    }
  }

  /** NeededBefore with the places and needs of this side. */
  lemma Before(f: Facts, log: seq<seq<Event>>, a: Event, b: Event)
    requires InPlace(log, PlaceIn(f)) && NoneMissing(log, PlaceIn(f), NeededIn(f))
    requires Needed(f, a) && b in Events(log) && Place(f, a) < Place(f, b)
    ensures a in Events(log) && Once(log, a) && Once(log, b) && Precedes(Events(log), a, b)
  {
    hide InPlace, NoneMissing, Place, Needed, Events, Once, Precedes;
    NeededBefore(log, PlaceIn(f), NeededIn(f), a, b);
  }

  lemma IsThere(f: Facts, log: seq<seq<Event>>, e: Event)
    requires LogOk(f, log) && Needed(f, e) && Place(f, e) < |log|
    ensures e in Events(log)
  {
    hide EntryOk, Place, Needed;
    NeededThere(f, Place(f, e), log[Place(f, e)], e);
    EventsHave(log, Place(f, e), e);
  }

  /**
   At state_done each direction's ChangeCipherSpec came before its key change, that before its Finished,
   and each just once; a full handshake sent its own before it took the server's, a resumed one the
   other way round.
   */
  lemma FinishedInOrder(dtls: bool, run: seq<Config<Hs, Event>>, steps: seq<Step<Choice>>, i: nat)
    requires IsRun(Client(dtls), run, steps) && i < |run| && run[i].hs.state.Done?
    ensures var events, log := Events(run[i].log), run[i].log;
            && Once(log, GotCcs) && Once(log, ChangedReadKey) && Once(log, VerifiedFinished)
            && Once(log, SentCcs) && Once(log, ChangedWriteKey) && Once(log, SentFinished)
            && Precedes(events, GotCcs, ChangedReadKey) && Precedes(events, ChangedReadKey, VerifiedFinished)
            && Precedes(events, SentCcs, ChangedWriteKey) && Precedes(events, ChangedWriteKey, SentFinished)
            && (if run[i].hs.facts.resumed then Precedes(events, VerifiedFinished, SentCcs)
                else Precedes(events, SentFinished, GotCcs))
  {
    hide IsRun, LogOk, InPlace, NoneMissing, Events, Precedes, Once;
    RunInPlace(dtls, run, steps, i);
    var f, log := run[i].hs.facts, run[i].log;
    hide PlaceIn, NeededIn;
    Before(f, log, GotCcs, ChangedReadKey);
    Before(f, log, ChangedReadKey, VerifiedFinished);
    Before(f, log, SentCcs, ChangedWriteKey);
    Before(f, log, ChangedWriteKey, SentFinished);
    if f.resumed {
      Before(f, log, VerifiedFinished, SentCcs);
    } else {
      Before(f, log, SentFinished, GotCcs);
    }
  }

  lemma KeyExchangeIsFull(f: Facts, log: seq<seq<Event>>)
    requires LogOk(f, log) && InPlace(log, PlaceIn(f)) && SentClientKeyExchange in Events(log)
    ensures !f.resumed
  {
    hide InPlace, OpeningEntry, FullEntry, ReadEntry;
    OnlyThere(log, PlaceIn(f), SentClientKeyExchange);
    assert EntryOk(f, 11, log[11]);
  }

  /** In a full handshake with certificates no key exchange leaves before the certificate has been checked. */
  lemma CheckedBeforeKeyExchange(dtls: bool, run: seq<Config<Hs, Event>>, steps: seq<Step<Choice>>, i: nat)
    requires IsRun(Client(dtls), run, steps) && i < |run| && !run[i].hs.state.Tls13?
    requires run[i].hs.facts.UsesCert() && SentClientKeyExchange in Events(run[i].log)
    ensures var events := Events(run[i].log);
            && !run[i].hs.facts.resumed && Once(run[i].log, CheckedCertificate)
            && Precedes(events, GotCertificate, CheckedCertificate)
            && Precedes(events, CheckedCertificate, SentClientKeyExchange)
  {
    hide IsRun, LogOk, InPlace, NoneMissing, Events, Precedes, Once;
    RunInPlace(dtls, run, steps, i);
    var f, log := run[i].hs.facts, run[i].log;
    KeyExchangeIsFull(f, log);
    Before(f, log, CheckedCertificate, SentClientKeyExchange);
    Before(f, log, GotCertificate, CheckedCertificate);
  }

  lemma ProofMeansRequest(f: Facts, log: seq<seq<Event>>, e: Event)
    requires LogOk(f, log) && InPlace(log, PlaceIn(f)) && e in Events(log)
    requires e.SentCertificate? || e.SentCertificateVerify?
    ensures !f.resumed && f.certRequest
  {
    hide InPlace;
    OnlyThere(log, PlaceIn(f), e);
    assert EntryOk(f, Place(f, e), log[Place(f, e)]);
  }

  /** A client certificate or a proof of its key goes out only after the server asked for one. */
  lemma ProofOnlyOnRequest(dtls: bool, run: seq<Config<Hs, Event>>, steps: seq<Step<Choice>>, i: nat, e: Event)
    requires IsRun(Client(dtls), run, steps) && i < |run| && !run[i].hs.state.Tls13?
    requires (e.SentCertificate? || e.SentCertificateVerify?) && e in Events(run[i].log)
    ensures Precedes(Events(run[i].log), GotCertificateRequest, e)
  {
    hide IsRun, LogOk, InPlace, NoneMissing, Events, Precedes, Once;
    RunInPlace(dtls, run, steps, i);
    var f, log := run[i].hs.facts, run[i].log;
    ProofMeansRequest(f, log, e);
    Before(f, log, GotCertificateRequest, e);
  }

  lemma FlightFinished(f: Facts, log: seq<seq<Event>>)
    requires LogOk(f, log) && InPlace(log, PlaceIn(f)) && |log| == 17 && !f.resumed
    ensures SentFinished in Events(log) && (f.UsesCert() ==> CheckedCertificate in Events(log))
    ensures f.RequiresSke() ==> GotServerKeyExchange in Events(log)
    ensures GotCcs !in Events(log) && VerifiedFinished !in Events(log)
  {
    hide LogOk, InPlace, Events;
    IsThere(f, log, SentFinished);
    if f.UsesCert() { IsThere(f, log, CheckedCertificate); }
    if f.RequiresSke() { IsThere(f, log, GotServerKeyExchange); }
    if GotCcs in Events(log) { OnlyThere(log, PlaceIn(f), GotCcs); }
    if VerifiedFinished in Events(log) { OnlyThere(log, PlaceIn(f), VerifiedFinished); }
  }

  /** What a turn that returns early, but for early data, goes by. */
  lemma EarlyTurn(hs: Hs, c: Choice)
    requires Advance(hs, c).wait == EarlyReturn && !hs.state.EnterEarlyData?
    ensures hs.state.FinishFlight? && CanFalseStart(hs, c) && !hs.facts.resumed
    ensures var out := Advance(hs, c); out.hs == hs.(state := ReadSessionTicket) && out.did == []
  {
    hide Takes, Shows, Rest;
  }

  /**
   False Start: the caller may write before the handshake is over, early data apart, only in a full TLS 1.2
   handshake over TLS with an ECDHE and AEAD cipher, after this side's Finished, with the server's key share
   taken and its certificate checked if it has one; nothing of the server's ChangeCipherSpec or Finished has
   been taken yet.
   */
  lemma FalseStartIsLate(dtls: bool, run: seq<Config<Hs, Event>>, steps: seq<Step<Choice>>, i: nat)
    requires IsRun(Client(dtls), run, steps) && i < |steps| && steps[i].Machine?
    requires run[i + 1].wait == EarlyReturn && !run[i].hs.state.EnterEarlyData?
    ensures var f, events := run[i + 1].hs.facts, Events(run[i + 1].log);
            && !f.resumed && f.version == Tls12 && f.cipher.kx == Ecdhe && f.cipher.aead && !run[i + 1].hs.dtls
            && SentFinished in events && GotServerKeyExchange in events && (f.UsesCert() ==> CheckedCertificate in events)
            && GotCcs !in events && VerifiedFinished !in events
  {
    hide LogOk, Events, Advance, FactsOk;
    RunKeepsInv(dtls, run, steps, i);
    TurnIs(dtls, run[i], steps[i].choice);
    hide Next, Enabled;
    EarlyTurn(run[i].hs, steps[i].choice);
    var out := Advance(run[i].hs, steps[i].choice);
    assert run[i].log + out.did == run[i].log;
    LogPlaced(run[i].hs.facts, run[i].log);
    FlightFinished(run[i].hs.facts, run[i].log);
  }

  // ---- Messages are accounted for -----------------------------------------------------------------

  /** Every message the transport delivered was taken by the step its type is for, in order, or is still waiting. */
  lemma MessagesAccountedFor(dtls: bool, run: seq<Config<Hs, Event>>, steps: seq<Step<Choice>>, i: nat)
    requires IsRun(Client(dtls), run, steps) && i < |run|
    ensures Delivered(run, steps, i) == Received(Events(run[i].log), Client(dtls).message) + run[i].hs.inbox
  {
    hide IsRun, Advance, Takes, Events, Received, Delivered;
    Accounted(Client(dtls), run, steps, i);
  }

  // ---- Every state change goes down ---------------------------------------------------------------

  lemma Goes(x: Config<Hs, Event>, c: Choice)
    requires Inv(x) && !x.hs.state.Done? && x.running
    ensures var out := Advance(x.hs, c);
            && (out.hs.state.Done? ==> out.wait == Ok)
            && (out.hs.facts.resumed == x.hs.facts.resumed || x.hs.state.ReadServerHello?)
            && (if out.hs.state == x.hs.state then out.wait != Ok
                else Rank(out.hs.state, out.hs.facts.resumed) < Rank(x.hs.state, x.hs.facts.resumed))
  {
    if !x.hs.state.Tls13? {
      hide LogOk, Advance, Rank, FactsOk;
      AdvanceMoves(x.hs, |x.log|, c);
    }
  }

  /** Each turn of ssl_client_handshake's loop that goes on goes down in rank; resumption is settled once. */
  lemma RankDrops(dtls: bool, run: seq<Config<Hs, Event>>, steps: seq<Step<Choice>>, i: nat)
    requires IsRun(Client(dtls), run, steps) && i < |steps| && steps[i].Machine?
    ensures var a, b := run[i].hs, run[i + 1].hs;
            && (b.facts.resumed == a.facts.resumed || a.state.ReadServerHello?)
            && (if b.state == a.state then !run[i + 1].running
                else Rank(b.state, b.facts.resumed) < Rank(a.state, a.facts.resumed))
  {
    RunKeepsInv(dtls, run, steps, i);
    hide Inv, Advance, Rank;
    Goes(run[i], steps[i].choice);
  }

  // ---- The code ---------------------------------------------------------------------------------

  class ClientHandshake {
    const dtls: bool
    var state: State
    var wait: Wait
    var inbox: seq<MsgType>
    var facts: Facts
    ghost var run: seq<Config<Hs, Event>>
    ghost var steps: seq<Step<Choice>>

    ghost function Value(): Hs
      reads this
    {
      Hs(state, dtls, inbox, facts)
    }

    /** The history is a run, and ends with what the fields hold. */
    ghost predicate Valid()
      reads this
    {
      IsRun(Client(dtls), run, steps) && run[|steps|] == Config(Value(), wait, false, run[|steps|].log)
    }

    /** Inside ssl_client_handshake, which keeps what it returns to itself until then. */
    ghost predicate Within()
      reads this
    {
      IsRun(Client(dtls), run, steps) && run[|steps|] == Config(Value(), Ok, !state.Done?, run[|steps|].log)
    }

    constructor (dtls: bool)
      ensures Valid() && steps == [] && this.dtls == dtls
    {
      this.dtls := dtls;
      state, wait, inbox, facts := StartConnect, Ok, [], NOTHING_YET;
      run, steps := [Config(Hs(StartConnect, dtls, [], NOTHING_YET), Ok, false, [])], [];
    }

    method DoStartConnect(c: Choice) returns (ret: Wait, ghost did: seq<seq<Event>>)
      requires state.StartConnect?
      modifies this`state, this`inbox, this`facts
      ensures Outcome(Value(), ret, did) == AfterStartConnect(old(Value()), c)
    {
      if !c.ok { return Error, []; }
      state := EnterEarlyData;
      return Flush, [[SentClientHello]];
    }

    method DoEnterEarlyData(c: Choice) returns (ret: Wait, ghost did: seq<seq<Event>>)
      requires state.EnterEarlyData?
      modifies this`state, this`inbox, this`facts
      ensures Outcome(Value(), ret, did) == AfterEnterEarlyData(old(Value()), c)
    {
      if dtls {
        state := ReadHelloVerifyRequest;
        return Ok, [[]];
      }
      if !c.offerEarly {
        state := ReadServerHello;
        return Ok, [[], []];
      }
      if !c.ok { return Error, []; }
      facts := facts.(earlyOffered := true);
      state := ReadServerHello;
      return EarlyReturn, [[SentEarlyCcs], []];
    }

    method DoReadHelloVerifyRequest(c: Choice) returns (ret: Wait, ghost did: seq<seq<Event>>)
      requires state.ReadHelloVerifyRequest?
      modifies this`state, this`inbox, this`facts
      ensures Outcome(Value(), ret, did) == AfterReadHelloVerifyRequest(old(Value()), c)
    {
      if inbox == [] { return ReadMessage, []; }
      if inbox[0] != HelloVerifyRequest {
        state := ReadServerHello;
        return Ok, [[]];
      }
      if !c.ok { return Error, []; }
      inbox := inbox[1..];
      state := ReadServerHello;
      return Flush, [[GotHelloVerifyRequest, ResentClientHello]];
    }

    method DoReadServerHello(c: Choice) returns (ret: Wait, ghost did: seq<seq<Event>>)
      requires state.ReadServerHello?
      modifies this`state, this`inbox, this`facts
      ensures Outcome(Value(), ret, did) == AfterReadServerHello(old(Value()), c)
    {
      if inbox == [] { return ReadMessage, []; }
      if inbox[0] != ServerHello || !c.ok { return Error, []; }
      if c.settled.tls13 {
        state := Tls13;
        return Ok, [[]];
      }
      if facts.earlyOffered { return Error, []; }
      var s := c.settled;
      facts := facts.(resumed := s.resumed, version := s.version, cipher := s.cipher);
      facts := facts.(statusExpected := s.statusExpected, ticketExpected := s.ticketExpected,
                      nextProto := s.nextProto, channelId := s.channelId);
      inbox := inbox[1..];
      if facts.resumed {
        state := ReadSessionTicket;
        return Ok, [[GotServerHello]];
      }
      state := ReadServerCertificate;
      return Ok, [[GotServerHello]];
    }

    method DoReadServerCertificate(c: Choice) returns (ret: Wait, ghost did: seq<seq<Event>>)
      requires state.ReadServerCertificate?
      modifies this`state, this`inbox, this`facts
      ensures Outcome(Value(), ret, did) == AfterReadServerCertificate(old(Value()), c)
    {
      if !facts.UsesCert() {
        state := ReadCertificateStatus;
        return Ok, [[]];
      }
      if inbox == [] { return ReadMessage, []; }
      if inbox[0] != Certificate || !c.ok { return Error, []; }
      inbox := inbox[1..];
      state := ReadCertificateStatus;
      return Ok, [[GotCertificate]];
    }

    method DoReadCertificateStatus(c: Choice) returns (ret: Wait, ghost did: seq<seq<Event>>)
      requires state.ReadCertificateStatus?
      modifies this`state, this`inbox, this`facts
      ensures Outcome(Value(), ret, did) == AfterReadCertificateStatus(old(Value()), c)
    {
      if !facts.statusExpected {
        state := VerifyServerCertificate;
        return Ok, [[]];
      }
      if inbox == [] { return ReadMessage, []; }
      if inbox[0] != CertificateStatus {
        state := VerifyServerCertificate;
        return Ok, [[]];
      }
      if !c.ok { return Error, []; }
      inbox := inbox[1..];
      state := VerifyServerCertificate;
      return Ok, [[GotCertificateStatus]];
    }

    method DoVerifyServerCertificate(c: Choice) returns (ret: Wait, ghost did: seq<seq<Event>>)
      requires state.VerifyServerCertificate?
      modifies this`state, this`inbox, this`facts
      ensures Outcome(Value(), ret, did) == AfterVerifyServerCertificate(old(Value()), c)
    {
      if !facts.UsesCert() {
        state := ReadServerKeyExchange;
        return Ok, [[]];
      }
      match c.verdict {
        case Valid =>
        case Invalid => return Error, [];
        case Retry => return Paused, [];
      }
      state := ReadServerKeyExchange;
      return Ok, [[CheckedCertificate]];
    }

    method DoReadServerKeyExchange(c: Choice) returns (ret: Wait, ghost did: seq<seq<Event>>)
      requires state.ReadServerKeyExchange?
      modifies this`state, this`inbox, this`facts
      ensures Outcome(Value(), ret, did) == AfterReadServerKeyExchange(old(Value()), c)
    {
      if inbox == [] { return ReadMessage, []; }
      if inbox[0] != ServerKeyExchange {
        if facts.RequiresSke() { return Error, []; }
        state := ReadCertificateRequest;
        return Ok, [[]];
      }
      if !c.ok || facts.cipher.kx == Rsa { return Error, []; }
      if facts.UsesCert() {
        if !c.signatureOk { return Error, []; }
      }
      inbox := inbox[1..];
      state := ReadCertificateRequest;
      return Ok, [[GotServerKeyExchange]];
    }

    method DoReadCertificateRequest(c: Choice) returns (ret: Wait, ghost did: seq<seq<Event>>)
      requires state.ReadCertificateRequest?
      modifies this`state, this`inbox, this`facts
      ensures Outcome(Value(), ret, did) == AfterReadCertificateRequest(old(Value()), c)
    {
      if !facts.UsesCert() {
        state := ReadServerHelloDone;
        return Ok, [[]];
      }
      if inbox == [] { return ReadMessage, []; }
      if inbox[0] == ServerHelloDone {
        state := ReadServerHelloDone;
        return Ok, [[]];
      }
      if inbox[0] != CertificateRequest || !c.ok { return Error, []; }
      facts := facts.(certRequest := true);
      inbox := inbox[1..];
      state := ReadServerHelloDone;
      return Ok, [[GotCertificateRequest]];
    }

    method DoReadServerHelloDone(c: Choice) returns (ret: Wait, ghost did: seq<seq<Event>>)
      requires state.ReadServerHelloDone?
      modifies this`state, this`inbox, this`facts
      ensures Outcome(Value(), ret, did) == AfterReadServerHelloDone(old(Value()), c)
    {
      if inbox == [] { return ReadMessage, []; }
      if inbox[0] != ServerHelloDone || !c.ok { return Error, []; }
      inbox := inbox[1..];
      state := SendClientCertificate;
      return Ok, [[GotServerHelloDone]];
    }

    method DoSendClientCertificate(c: Choice) returns (ret: Wait, ghost did: seq<seq<Event>>)
      requires state.SendClientCertificate?
      modifies this`state, this`inbox, this`facts
      ensures Outcome(Value(), ret, did) == AfterSendClientCertificate(old(Value()), c)
    {
      if !facts.certRequest {
        state := SendClientKeyExchange;
        return Ok, [[]];
      }
      if c.retry { return Paused, []; }
      if !c.ok { return Error, []; }
      state := SendClientKeyExchange;
      if !c.hasCert && facts.version == Ssl30 { return Ok, [[]]; }
      return Ok, [[SentCertificate]];
    }

    method DoSendClientKeyExchange(c: Choice) returns (ret: Wait, ghost did: seq<seq<Event>>)
      requires state.SendClientKeyExchange?
      modifies this`state, this`inbox, this`facts
      ensures Outcome(Value(), ret, did) == AfterSendClientKeyExchange(old(Value()), c)
    {
      if !c.ok { return Error, []; }
      state := SendClientCertificateVerify;
      return Ok, [[SentClientKeyExchange]];
    }

    method DoSendClientCertificateVerify(c: Choice) returns (ret: Wait, ghost did: seq<seq<Event>>)
      requires state.SendClientCertificateVerify?
      modifies this`state, this`inbox, this`facts
      ensures Outcome(Value(), ret, did) == AfterSendClientCertificateVerify(old(Value()), c)
    {
      if !facts.certRequest || !c.hasCert {
        state := SendClientFinished;
        return Ok, [[]];
      }
      if c.retry { return Paused, []; }
      if !c.ok { return Error, []; }
      state := SendClientFinished;
      return Ok, [[SentCertificateVerify]];
    }

    method DoSendClientFinished(c: Choice) returns (ret: Wait, ghost did: seq<seq<Event>>)
      requires state.SendClientFinished?
      modifies this`state, this`inbox, this`facts
      ensures Outcome(Value(), ret, did) == AfterSendClientFinished(old(Value()), c)
    {
      if facts.channelId && c.retry { return Paused, []; }
      if !c.ok { return Error, []; }
      did := [[SentCcs], [ChangedWriteKey]];
      ghost var extras: seq<Event> := [];
      if facts.nextProto { extras := extras + [SentNextProto]; }
      if facts.channelId { extras := extras + [SentChannelId]; }
      state := FinishFlight;
      assert extras == Extras(facts);
      return Flush, did + [extras, [SentFinished]];
    }

    method DoFinishFlight(c: Choice) returns (ret: Wait, ghost did: seq<seq<Event>>)
      requires state.FinishFlight?
      modifies this`state, this`inbox, this`facts
      ensures Outcome(Value(), ret, did) == AfterFinishFlight(old(Value()), c)
    {
      if facts.resumed {
        state := FinishClientHandshake;
        return Ok, [];
      }
      if !c.ok { return Error, []; }
      state := ReadSessionTicket;
      if c.falseStartOn {
        if dtls || facts.version != Tls12 || facts.cipher.kx != Ecdhe || !facts.cipher.aead { return Ok, []; }
        if c.protocolOk { return EarlyReturn, []; }
      }
      return Ok, [];
    }

    method DoReadSessionTicket(c: Choice) returns (ret: Wait, ghost did: seq<seq<Event>>)
      requires state.ReadSessionTicket?
      modifies this`state, this`inbox, this`facts
      ensures Outcome(Value(), ret, did) == AfterReadSessionTicket(old(Value()), c)
    {
      if !facts.ticketExpected {
        state := ProcessChangeCipherSpec;
        return ReadChangeCipherSpec, [[]];
      }
      if inbox == [] { return ReadMessage, []; }
      if inbox[0] != NewSessionTicket || !c.ok { return Error, []; }
      facts := facts.(ticketExpected := !c.emptyTicket);
      inbox := inbox[1..];
      state := ProcessChangeCipherSpec;
      return ReadChangeCipherSpec, [[GotSessionTicket]];
    }

    method DoProcessChangeCipherSpec(c: Choice) returns (ret: Wait, ghost did: seq<seq<Event>>)
      requires state.ProcessChangeCipherSpec?
      modifies this`state, this`inbox, this`facts
      ensures Outcome(Value(), ret, did) == AfterProcessChangeCipherSpec(old(Value()), c)
    {
      if !c.ok { return Error, []; }
      state := ReadServerFinished;
      return Ok, [[ChangedReadKey]];
    }

    method DoReadServerFinished(c: Choice) returns (ret: Wait, ghost did: seq<seq<Event>>)
      requires state.ReadServerFinished?
      modifies this`state, this`inbox, this`facts
      ensures Outcome(Value(), ret, did) == AfterReadServerFinished(old(Value()), c)
    {
      if inbox == [] { return ReadMessage, []; }
      if inbox[0] != Finished || !c.ok { return Error, []; }
      if !c.finishedMatches { return Error, []; }
      inbox := inbox[1..];
      if facts.resumed {
        state := SendClientFinished;
      } else {
        state := FinishClientHandshake;
      }
      return Ok, [[VerifiedFinished]];
    }

    method DoFinishClientHandshake(c: Choice) returns (ret: Wait, ghost did: seq<seq<Event>>)
      requires state.FinishClientHandshake?
      modifies this`state, this`inbox, this`facts
      ensures Outcome(Value(), ret, did) == AfterFinishClientHandshake(old(Value()), c)
    {
      if !c.ok { return Error, []; }
      state := Done;
      return Ok, [];
    }

    /** One turn of the loop: the switch. */
    method Turn(c: Choice) returns (ret: Wait, ghost did: seq<seq<Event>>)
      modifies this`state, this`inbox, this`facts
      ensures Outcome(Value(), ret, did) == Advance(old(Value()), c)
    {
      hide AfterStartConnect, AfterEnterEarlyData, AfterReadHelloVerifyRequest, AfterReadServerHello,
        AfterReadServerCertificate, AfterReadCertificateStatus, AfterVerifyServerCertificate,
        AfterReadServerKeyExchange, AfterReadCertificateRequest, AfterReadServerHelloDone, AfterSendClientCertificate,
        AfterSendClientKeyExchange, AfterSendClientCertificateVerify, AfterSendClientFinished, AfterFinishFlight,
        AfterReadSessionTicket, AfterProcessChangeCipherSpec, AfterReadServerFinished, AfterFinishClientHandshake;
      ret, did := Error, [];
      match state {
        case StartConnect => ret, did := DoStartConnect(c);
        case EnterEarlyData => ret, did := DoEnterEarlyData(c);
        case ReadHelloVerifyRequest => ret, did := DoReadHelloVerifyRequest(c);
        case ReadServerHello => ret, did := DoReadServerHello(c);
        case ReadServerCertificate => ret, did := DoReadServerCertificate(c);
        case ReadCertificateStatus => ret, did := DoReadCertificateStatus(c);
        case VerifyServerCertificate => ret, did := DoVerifyServerCertificate(c);
        case ReadServerKeyExchange => ret, did := DoReadServerKeyExchange(c);
        case ReadCertificateRequest => ret, did := DoReadCertificateRequest(c);
        case ReadServerHelloDone => ret, did := DoReadServerHelloDone(c);
        case SendClientCertificate => ret, did := DoSendClientCertificate(c);
        case SendClientKeyExchange => ret, did := DoSendClientKeyExchange(c);
        case SendClientCertificateVerify => ret, did := DoSendClientCertificateVerify(c);
        case SendClientFinished => ret, did := DoSendClientFinished(c);
        case FinishFlight => ret, did := DoFinishFlight(c);
        case ReadSessionTicket => ret, did := DoReadSessionTicket(c);
        case ProcessChangeCipherSpec => ret, did := DoProcessChangeCipherSpec(c);
        case ReadServerFinished => ret, did := DoReadServerFinished(c);
        case FinishClientHandshake => ret, did := DoFinishClientHandshake(c);
        case Tls13 => ret := Error;
        case Done => ret := Ok;
      }
    }

    /** ssl_client_handshake: it comes back with ssl_hs_ok only at state_done. */
    method Handshake() returns (ret: Wait)
      requires Within()
      modifies `state, `inbox, `facts, `run, `steps
      ensures IsRun(Client(dtls), run, steps) && run[|steps|] == Config(Value(), ret, false, run[|steps|].log)
      ensures old(run) <= run && old(steps) <= steps
      ensures ret == Ok <==> state.Done?
    {
      hide Advance, Resolve;
      while state != Done
        invariant Within()
        invariant old(run) <= run && old(steps) <= steps
        decreases Rank(state, facts.resumed)
      {
        var c: Choice := *;
        ghost var before, did;
        before := run[|steps|];
        RunKeepsInv(dtls, run, steps, |steps|);
        Goes(before, c);
        ret, did := Turn(c);
        assert Outcome(Value(), ret, did) == Advance(before.hs, c);
        RunExtends(Client(dtls), run, steps, Machine(c));
        run := run + [Next(Client(dtls), before, Machine(c))];
        steps := steps + [Machine(c)];
        if ret != Ok { return; }
      }
      ret := Ok;
    }

    /** The top of ssl_run_handshake's loop, with what the transport gives: come back, go on waiting, or run on. */
    method ResolveWait(io: Io) returns (stop: bool, again: bool, ret: Returned)
      requires Valid() && !state.Done?
      modifies `wait, `inbox, `run, `steps
      ensures run == old(run) + [Next(Client(dtls), old(run[|steps|]), Driver(io))] && steps == old(steps) + [Driver(io)]
      ensures if stop || again then Valid() else Within()
      ensures !ret.Completed? && (old(wait) == Error ==> stop)
      ensures !stop && old(wait) != Ok ==> !io.Blocked?
      ensures again ==> old(wait) != Ok
    {
      hide Advance;
      RunExtends(Client(dtls), run, steps, Driver(io));
      run := run + [Next(Client(dtls), run[|steps|], Driver(io))];
      steps := steps + [Driver(io)];
      stop, again, ret := false, false, Stopped;
      assert inbox + [] == inbox;
      match wait {
        case Error => stop := true;
        case Flush => stop := !io.Succeeded?;
        case ReadMessage =>
          stop, again := io.Blocked?, io.Discarded?;
          if io.Succeeded? { inbox := inbox + io.msgs; }
        case ReadChangeCipherSpec =>
          stop, again := io.Blocked?, io.Discarded?;
        case Paused =>
          wait, stop := Ok, true;
        case EarlyReturn =>
          wait, stop, ret := Ok, true, Early;
        case Ok =>
      }
    }

    /**
     ssl_run_handshake.  io is what the transport gives from now on, and when it has given that it
     blocks.  Success is reported at state_done and nowhere else.
     */
    method RunHandshake(io: seq<Io>) returns (ret: Returned)
      requires Valid() && !state.Done?
      modifies `state, `wait, `inbox, `facts, `run, `steps
      ensures Valid() && old(run) <= run && old(steps) <= steps
      ensures ret.Completed? <==> state.Done?
    {
      hide Next, IsRun;
      var k := 0;
      while true
        invariant Valid() && !state.Done?
        invariant old(run) <= run && old(steps) <= steps
        invariant 0 <= k <= |io|
        decreases |io| - k, if wait == Ok then 1 else 0
      {
        var next := if k < |io| then io[k] else Blocked;
        if wait != Ok && k < |io| { k := k + 1; }
        var stop, again;
        stop, again, ret := ResolveWait(next);
        if stop { return; }
        if again { continue; }
        wait := Handshake();
        if wait == Ok { return Completed; }
        if wait == Error { return Stopped; }
      }
    }
  }
}
