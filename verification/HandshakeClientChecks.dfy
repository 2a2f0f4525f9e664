/**
 What the client's handshake steps go by: no event without the checks it stands for, no failed check that the
 handshake survives, and for every kind of handshake a run that completes it.
 */
module HandshakeClientChecks {
  import opened Handshake
  import opened HandshakeClient

  // ---- No event without its checks --------------------------------------------------------------

  /** What a turn must have been made in, and what it must have found, to report an event. */
  predicate Earned(hs: Hs, c: Choice, e: Event) {
    match e
    case SentClientHello => hs.state.StartConnect? && c.ok
    case SentEarlyCcs => hs.state.EnterEarlyData? && !hs.dtls && c.offerEarly && c.ok
    case GotHelloVerifyRequest => hs.state.ReadHelloVerifyRequest? && Shows(hs.inbox, HelloVerifyRequest) && c.ok
    case ResentClientHello => hs.state.ReadHelloVerifyRequest? && Shows(hs.inbox, HelloVerifyRequest) && c.ok
    case GotServerHello =>
      hs.state.ReadServerHello? && Shows(hs.inbox, ServerHello) && c.ok && !c.settled.tls13 && !hs.facts.earlyOffered
    case GotCertificate =>
      hs.state.ReadServerCertificate? && hs.facts.UsesCert() && Shows(hs.inbox, Certificate) && c.ok
    case GotCertificateStatus =>
      hs.state.ReadCertificateStatus? && hs.facts.statusExpected && Shows(hs.inbox, CertificateStatus) && c.ok
    case CheckedCertificate => hs.state.VerifyServerCertificate? && hs.facts.UsesCert() && c.verdict == Valid
    case GotServerKeyExchange =>
      hs.state.ReadServerKeyExchange? && Shows(hs.inbox, ServerKeyExchange) && c.ok
      && hs.facts.cipher.kx != Rsa && (hs.facts.UsesCert() ==> c.signatureOk)
    case GotCertificateRequest =>
      hs.state.ReadCertificateRequest? && hs.facts.UsesCert() && Shows(hs.inbox, CertificateRequest) && c.ok
    case GotServerHelloDone => hs.state.ReadServerHelloDone? && Shows(hs.inbox, ServerHelloDone) && c.ok
    case SentCertificate =>
      hs.state.SendClientCertificate? && hs.facts.certRequest && !c.retry && c.ok
      && (c.hasCert || hs.facts.version != Ssl30)
    case SentClientKeyExchange => hs.state.SendClientKeyExchange? && c.ok
    case SentCertificateVerify =>
      hs.state.SendClientCertificateVerify? && hs.facts.certRequest && c.hasCert && !c.retry && c.ok
    case SentCcs => hs.state.SendClientFinished? && c.ok
    case ChangedWriteKey => hs.state.SendClientFinished? && c.ok
    case SentNextProto => hs.state.SendClientFinished? && hs.facts.nextProto && c.ok
    case SentChannelId => hs.state.SendClientFinished? && hs.facts.channelId && !c.retry && c.ok
    case SentFinished => hs.state.SendClientFinished? && c.ok
    case GotSessionTicket =>
      hs.state.ReadSessionTicket? && hs.facts.ticketExpected && Shows(hs.inbox, NewSessionTicket) && c.ok
    case GotCcs => false
    case ChangedReadKey => hs.state.ProcessChangeCipherSpec? && c.ok
    case VerifiedFinished =>
      hs.state.ReadServerFinished? && Shows(hs.inbox, MsgType.Finished) && c.finishedMatches && c.ok
  }

  lemma StartConnectEarns(hs: Hs, c: Choice, e: Event)
    requires e in Events(AfterStartConnect(hs, c).did) && hs.state.StartConnect?
    ensures Earned(hs, c, e)
  {
    hide Takes, Shows, Rest, Events;
    var j := InSomeEntry(AfterStartConnect(hs, c).did, e);
  }

  lemma EnterEarlyDataEarns(hs: Hs, c: Choice, e: Event)
    requires e in Events(AfterEnterEarlyData(hs, c).did) && hs.state.EnterEarlyData?
    ensures Earned(hs, c, e)
  {
    hide Takes, Shows, Rest, Events;
    var j := InSomeEntry(AfterEnterEarlyData(hs, c).did, e);
  }

  lemma ReadHelloVerifyRequestEarns(hs: Hs, c: Choice, e: Event)
    requires e in Events(AfterReadHelloVerifyRequest(hs, c).did) && hs.state.ReadHelloVerifyRequest?
    ensures Earned(hs, c, e)
  {
    hide Takes, Shows, Rest, Events;
    var j := InSomeEntry(AfterReadHelloVerifyRequest(hs, c).did, e);
  }

  lemma ReadServerHelloEarns(hs: Hs, c: Choice, e: Event)
    requires e in Events(AfterReadServerHello(hs, c).did) && hs.state.ReadServerHello?
    ensures Earned(hs, c, e)
  {
    hide Takes, Shows, Rest, Events;
    var j := InSomeEntry(AfterReadServerHello(hs, c).did, e);
  }

  lemma ReadServerCertificateEarns(hs: Hs, c: Choice, e: Event)
    requires e in Events(AfterReadServerCertificate(hs, c).did) && hs.state.ReadServerCertificate?
    ensures Earned(hs, c, e)
  {
    hide Takes, Shows, Rest, Events;
    var j := InSomeEntry(AfterReadServerCertificate(hs, c).did, e);
  }

  lemma ReadCertificateStatusEarns(hs: Hs, c: Choice, e: Event)
    requires e in Events(AfterReadCertificateStatus(hs, c).did) && hs.state.ReadCertificateStatus?
    ensures Earned(hs, c, e)
  {
    hide Takes, Shows, Rest, Events;
    var j := InSomeEntry(AfterReadCertificateStatus(hs, c).did, e);
  }

  lemma VerifyServerCertificateEarns(hs: Hs, c: Choice, e: Event)
    requires e in Events(AfterVerifyServerCertificate(hs, c).did) && hs.state.VerifyServerCertificate?
    ensures Earned(hs, c, e)
  {
    hide Takes, Shows, Rest, Events;
    var j := InSomeEntry(AfterVerifyServerCertificate(hs, c).did, e);
  }

  lemma ReadServerKeyExchangeEarns(hs: Hs, c: Choice, e: Event)
    requires e in Events(AfterReadServerKeyExchange(hs, c).did) && hs.state.ReadServerKeyExchange?
    ensures Earned(hs, c, e)
  {
    hide Takes, Shows, Rest, Events;
    var j := InSomeEntry(AfterReadServerKeyExchange(hs, c).did, e);
  }

  lemma ReadCertificateRequestEarns(hs: Hs, c: Choice, e: Event)
    requires e in Events(AfterReadCertificateRequest(hs, c).did) && hs.state.ReadCertificateRequest?
    ensures Earned(hs, c, e)
  {
    hide Takes, Shows, Rest, Events;
    var j := InSomeEntry(AfterReadCertificateRequest(hs, c).did, e);
  }

  lemma ReadServerHelloDoneEarns(hs: Hs, c: Choice, e: Event)
    requires e in Events(AfterReadServerHelloDone(hs, c).did) && hs.state.ReadServerHelloDone?
    ensures Earned(hs, c, e)
  {
    hide Takes, Shows, Rest, Events;
    var j := InSomeEntry(AfterReadServerHelloDone(hs, c).did, e);
  }

  lemma SendClientCertificateEarns(hs: Hs, c: Choice, e: Event)
    requires e in Events(AfterSendClientCertificate(hs, c).did) && hs.state.SendClientCertificate?
    ensures Earned(hs, c, e)
  {
    hide Takes, Shows, Rest, Events;
    var j := InSomeEntry(AfterSendClientCertificate(hs, c).did, e);
  }

  lemma SendClientKeyExchangeEarns(hs: Hs, c: Choice, e: Event)
    requires e in Events(AfterSendClientKeyExchange(hs, c).did) && hs.state.SendClientKeyExchange?
    ensures Earned(hs, c, e)
  {
    hide Takes, Shows, Rest, Events;
    var j := InSomeEntry(AfterSendClientKeyExchange(hs, c).did, e);
  }

  lemma SendClientCertificateVerifyEarns(hs: Hs, c: Choice, e: Event)
    requires e in Events(AfterSendClientCertificateVerify(hs, c).did) && hs.state.SendClientCertificateVerify?
    ensures Earned(hs, c, e)
  {
    hide Takes, Shows, Rest, Events;
    var j := InSomeEntry(AfterSendClientCertificateVerify(hs, c).did, e);
  }

  lemma SendClientFinishedEarns(hs: Hs, c: Choice, e: Event)
    requires e in Events(AfterSendClientFinished(hs, c).did) && hs.state.SendClientFinished?
    ensures Earned(hs, c, e)
  {
    hide Takes, Shows, Rest, Events;
    var j := InSomeEntry(AfterSendClientFinished(hs, c).did, e);
  }

  lemma ReadSessionTicketEarns(hs: Hs, c: Choice, e: Event)
    requires e in Events(AfterReadSessionTicket(hs, c).did) && hs.state.ReadSessionTicket?
    ensures Earned(hs, c, e)
  {
    hide Takes, Shows, Rest, Events;
    var j := InSomeEntry(AfterReadSessionTicket(hs, c).did, e);
  }

  lemma ProcessChangeCipherSpecEarns(hs: Hs, c: Choice, e: Event)
    requires e in Events(AfterProcessChangeCipherSpec(hs, c).did) && hs.state.ProcessChangeCipherSpec?
    ensures Earned(hs, c, e)
  {
    hide Takes, Shows, Rest, Events;
    var j := InSomeEntry(AfterProcessChangeCipherSpec(hs, c).did, e);
  }

  lemma ReadServerFinishedEarns(hs: Hs, c: Choice, e: Event)
    requires e in Events(AfterReadServerFinished(hs, c).did) && hs.state.ReadServerFinished?
    ensures Earned(hs, c, e)
  {
    hide Takes, Shows, Rest, Events;
    var j := InSomeEntry(AfterReadServerFinished(hs, c).did, e);
  }

  lemma TurnEarns(hs: Hs, c: Choice, e: Event)
    requires e in Events(Advance(hs, c).did)
    ensures Earned(hs, c, e)
  {
    hide Takes, Events, Earned, AfterStartConnect, AfterEnterEarlyData, AfterReadHelloVerifyRequest,
      AfterReadServerHello, AfterReadServerCertificate, AfterReadCertificateStatus, AfterVerifyServerCertificate,
      AfterReadServerKeyExchange, AfterReadCertificateRequest, AfterReadServerHelloDone, AfterSendClientCertificate,
      AfterSendClientKeyExchange, AfterSendClientCertificateVerify, AfterSendClientFinished,
      AfterReadSessionTicket, AfterProcessChangeCipherSpec, AfterReadServerFinished;
    NothingHappened();
    match hs.state {
      case StartConnect => StartConnectEarns(hs, c, e);
      case EnterEarlyData => EnterEarlyDataEarns(hs, c, e);
      case ReadHelloVerifyRequest => ReadHelloVerifyRequestEarns(hs, c, e);
      case ReadServerHello => ReadServerHelloEarns(hs, c, e);
      case ReadServerCertificate => ReadServerCertificateEarns(hs, c, e);
      case ReadCertificateStatus => ReadCertificateStatusEarns(hs, c, e);
      case VerifyServerCertificate => VerifyServerCertificateEarns(hs, c, e);
      case ReadServerKeyExchange => ReadServerKeyExchangeEarns(hs, c, e);
      case ReadCertificateRequest => ReadCertificateRequestEarns(hs, c, e);
      case ReadServerHelloDone => ReadServerHelloDoneEarns(hs, c, e);
      case SendClientCertificate => SendClientCertificateEarns(hs, c, e);
      case SendClientKeyExchange => SendClientKeyExchangeEarns(hs, c, e);
      case SendClientCertificateVerify => SendClientCertificateVerifyEarns(hs, c, e);
      case SendClientFinished => SendClientFinishedEarns(hs, c, e);
      case ReadSessionTicket => ReadSessionTicketEarns(hs, c, e);
      case ProcessChangeCipherSpec => ProcessChangeCipherSpecEarns(hs, c, e);
      case ReadServerFinished => ReadServerFinishedEarns(hs, c, e);
      case _ => assert false;
    }
  }

  lemma NothingHappened()
    ensures Events<Event>([]) == []
  {
  }

  /**
   In any run whatever has happened was earned: by an earlier turn in the right state that found what the
   event stands for, the certificate valid, the signature good, the Finished message the expected one; only
   the ChangeCipherSpec is read by the driver, when it was waited for.
   */
  lemma EventEarned(dtls: bool, run: seq<Config<Hs, Event>>, steps: seq<Step<Choice>>, i: nat, e: Event)
      returns (k: nat)
    requires IsRun(Client(dtls), run, steps) && i < |run| && e in Events(run[i].log)
    ensures k < i
    ensures if e.GotCcs? then GetsCcs(run[k], steps[k])
            else steps[k].Machine? && Earned(run[k].hs, steps[k].choice, e)
  {
    hide Events, Advance, Next;
    k := EventHasStep(Client(dtls), run, steps, i, e);
    if steps[k].Machine? {
      TurnEarns(run[k].hs, steps[k].choice, e);
    }
  }

  // ---- No failed check survived -----------------------------------------------------------------

  /** What a turn finds that must end the handshake. */
  predicate Fatal(hs: Hs, c: Choice) {
    match hs.state
    case ReadServerHello =>
      hs.inbox != [] && (!Shows(hs.inbox, ServerHello) || !c.ok || (!c.settled.tls13 && hs.facts.earlyOffered))
    case ReadServerCertificate => hs.facts.UsesCert() && hs.inbox != [] && (!Shows(hs.inbox, Certificate) || !c.ok)
    case VerifyServerCertificate => hs.facts.UsesCert() && c.verdict == Invalid
    case ReadServerKeyExchange =>
      hs.inbox != []
      && if Shows(hs.inbox, ServerKeyExchange)
         then !c.ok || hs.facts.cipher.kx == Rsa || (hs.facts.UsesCert() && !c.signatureOk)
         else hs.facts.RequiresSke()
    case ReadCertificateRequest =>
      hs.facts.UsesCert() && hs.inbox != [] && !Shows(hs.inbox, ServerHelloDone)
      && (!Shows(hs.inbox, CertificateRequest) || !c.ok)
    case ReadServerHelloDone => hs.inbox != [] && (!Shows(hs.inbox, ServerHelloDone) || !c.ok)
    case ReadSessionTicket =>
      hs.facts.ticketExpected && hs.inbox != [] && (!Shows(hs.inbox, NewSessionTicket) || !c.ok)
    case ProcessChangeCipherSpec => !c.ok
    case ReadServerFinished => hs.inbox != [] && (!Shows(hs.inbox, MsgType.Finished) || !c.ok || !c.finishedMatches)
    case _ => false
  }

  /** An invalid certificate, a bad signature, a wrong Finished or message ends it for good, and leaves no trace. */
  lemma FatalEnds(dtls: bool, run: seq<Config<Hs, Event>>, steps: seq<Step<Choice>>, k: nat, i: nat)
    requires IsRun(Client(dtls), run, steps) && k < i < |run| && steps[k].Machine?
    requires Fatal(run[k].hs, steps[k].choice)
    ensures run[i] == Config(run[k].hs, Error, false, run[k].log)
  {
    hide Next, Advance, Fatal, Enabled;
    FatalTurn(run[k].hs, steps[k].choice);
    TurnIs(dtls, run[k], steps[k].choice);
    assert run[k].log + [] == run[k].log;
    ErrorIsFinal(Client(dtls), run, steps, k + 1, i);
  }

  lemma FatalTurn(hs: Hs, c: Choice)
    requires Fatal(hs, c)
    ensures Advance(hs, c) == Stay(hs, Error)
  {
    hide Takes, Rest;
  }

  // ---- Every kind of handshake can be completed -------------------------------------------------

  /** A handshake to be had: what the ServerHello settles, and whether the server asks for a certificate. */
  datatype Plan = Plan(settled: Settled, asks: bool)

  /** Nothing fails, and no callback asks to be called again. */
  function Good(plan: Plan): Choice {
    Choice(true, false, Valid, true, true, plan.settled, false, true, false, false, false)
  }

  function FactsOf(plan: Plan): Facts {
    var s := plan.settled;
    Facts(false, s.resumed, s.version, s.cipher, s.statusExpected, s.ticketExpected, s.nextProto, s.channelId, false)
  }

  /** The server's flight from the key exchange on, as far as it is still to come. */
  function Left(plan: Plan, state: State): seq<MsgType> {
    if state.ReadCertificateRequest? && plan.asks && plan.settled.cipher.certAuth
    then [CertificateRequest, ServerHelloDone]
    else if state.ReadCertificateRequest? || state.ReadServerHelloDone? then [ServerHelloDone]
    else []
  }

  /** What the server sends when the client waits in a state. */
  function Sends(plan: Plan, state: State): seq<MsgType> {
    var s := plan.settled;
    match state
    case ReadHelloVerifyRequest => [HelloVerifyRequest]
    case ReadServerHello => [ServerHello]
    case ReadServerCertificate => if s.cipher.certAuth then [Certificate] else []
    case ReadCertificateStatus => if s.statusExpected then [CertificateStatus] else []
    case ReadServerKeyExchange =>
      (if s.cipher.kx == Ecdhe then [ServerKeyExchange] else []) + Left(plan, ReadCertificateRequest)
    case ReadSessionTicket => if s.ticketExpected then [NewSessionTicket] else []
    case ReadServerFinished => [MsgType.Finished]
    case _ => []
  }

  /** The handshake is going as planned. */
  predicate OnTrack(plan: Plan, hs: Hs) {
    && !hs.state.Tls13? && hs.inbox == Left(plan, hs.state)
    && if Rank(hs.state, false) >= Rank(ReadServerHello, false) then hs.facts == NOTHING_YET
       else
         && hs.facts == FactsOf(plan).(certRequest := hs.facts.certRequest)
         && (plan.settled.resumed ==> !FullOnly(hs.state))
         && (hs.facts.certRequest <==>
               plan.asks && plan.settled.cipher.certAuth && !plan.settled.resumed
               && Rank(hs.state, false) < Rank(ReadCertificateRequest, false))
  }

  /** Where a turn that has what it needs leads. */
  predicate Goes(plan: Plan, hs: Hs, out: Outcome<Hs, Event>) {
    && OnTrack(plan, out.hs) && (out.wait.Ok? || out.wait.Flush? || out.wait.ReadChangeCipherSpec?)
    && (out.hs.state.Done? ==> out.wait.Ok?)
    && Rank(out.hs.state, plan.settled.resumed) < Rank(hs.state, plan.settled.resumed)
  }

  lemma StartConnectGoes(plan: Plan, hs: Hs)
    requires OnTrack(plan, hs) && hs.state.StartConnect? && !plan.settled.tls13
    ensures Sends(plan, hs.state) != [] ==> AfterStartConnect(hs, Good(plan)) == Stay(hs, ReadMessage)
    ensures Goes(plan, hs, AfterStartConnect(hs.(inbox := hs.inbox + Sends(plan, hs.state)), Good(plan)))
  {
    hide Takes;
  }

  lemma EnterEarlyDataGoes(plan: Plan, hs: Hs)
    requires OnTrack(plan, hs) && hs.state.EnterEarlyData? && !plan.settled.tls13
    ensures Sends(plan, hs.state) != [] ==> AfterEnterEarlyData(hs, Good(plan)) == Stay(hs, ReadMessage)
    ensures Goes(plan, hs, AfterEnterEarlyData(hs.(inbox := hs.inbox + Sends(plan, hs.state)), Good(plan)))
  {
    hide Takes;
  }

  lemma ReadHelloVerifyRequestGoes(plan: Plan, hs: Hs)
    requires OnTrack(plan, hs) && hs.state.ReadHelloVerifyRequest? && !plan.settled.tls13
    ensures Sends(plan, hs.state) != [] ==> AfterReadHelloVerifyRequest(hs, Good(plan)) == Stay(hs, ReadMessage)
    ensures Goes(plan, hs, AfterReadHelloVerifyRequest(hs.(inbox := hs.inbox + Sends(plan, hs.state)), Good(plan)))
  {
    hide Takes;
  }

  lemma ReadServerHelloGoes(plan: Plan, hs: Hs)
    requires OnTrack(plan, hs) && hs.state.ReadServerHello? && !plan.settled.tls13
    ensures Sends(plan, hs.state) != [] ==> AfterReadServerHello(hs, Good(plan)) == Stay(hs, ReadMessage)
    ensures Goes(plan, hs, AfterReadServerHello(hs.(inbox := hs.inbox + Sends(plan, hs.state)), Good(plan)))
  {
    hide Takes;
  }

  lemma ReadServerCertificateGoes(plan: Plan, hs: Hs)
    requires OnTrack(plan, hs) && hs.state.ReadServerCertificate? && !plan.settled.tls13
    ensures Sends(plan, hs.state) != [] ==> AfterReadServerCertificate(hs, Good(plan)) == Stay(hs, ReadMessage)
    ensures Goes(plan, hs, AfterReadServerCertificate(hs.(inbox := hs.inbox + Sends(plan, hs.state)), Good(plan)))
  {
    hide Takes;
  }

  lemma ReadCertificateStatusGoes(plan: Plan, hs: Hs)
    requires OnTrack(plan, hs) && hs.state.ReadCertificateStatus? && !plan.settled.tls13
    ensures Sends(plan, hs.state) != [] ==> AfterReadCertificateStatus(hs, Good(plan)) == Stay(hs, ReadMessage)
    ensures Goes(plan, hs, AfterReadCertificateStatus(hs.(inbox := hs.inbox + Sends(plan, hs.state)), Good(plan)))
  {
    hide Takes;
  }

  lemma VerifyServerCertificateGoes(plan: Plan, hs: Hs)
    requires OnTrack(plan, hs) && hs.state.VerifyServerCertificate? && !plan.settled.tls13
    ensures Sends(plan, hs.state) != [] ==> AfterVerifyServerCertificate(hs, Good(plan)) == Stay(hs, ReadMessage)
    ensures Goes(plan, hs, AfterVerifyServerCertificate(hs.(inbox := hs.inbox + Sends(plan, hs.state)), Good(plan)))
  {
    hide Takes;
  }

  lemma ReadServerKeyExchangeGoes(plan: Plan, hs: Hs)
    requires OnTrack(plan, hs) && hs.state.ReadServerKeyExchange? && !plan.settled.tls13
    ensures Sends(plan, hs.state) != [] ==> AfterReadServerKeyExchange(hs, Good(plan)) == Stay(hs, ReadMessage)
    ensures Goes(plan, hs, AfterReadServerKeyExchange(hs.(inbox := hs.inbox + Sends(plan, hs.state)), Good(plan)))
  {
    hide Takes;
  }

  lemma ReadCertificateRequestGoes(plan: Plan, hs: Hs)
    requires OnTrack(plan, hs) && hs.state.ReadCertificateRequest? && !plan.settled.tls13
    ensures Sends(plan, hs.state) != [] ==> AfterReadCertificateRequest(hs, Good(plan)) == Stay(hs, ReadMessage)
    ensures Goes(plan, hs, AfterReadCertificateRequest(hs.(inbox := hs.inbox + Sends(plan, hs.state)), Good(plan)))
  {
    hide Takes;
  }

  lemma ReadServerHelloDoneGoes(plan: Plan, hs: Hs)
    requires OnTrack(plan, hs) && hs.state.ReadServerHelloDone? && !plan.settled.tls13
    ensures Sends(plan, hs.state) != [] ==> AfterReadServerHelloDone(hs, Good(plan)) == Stay(hs, ReadMessage)
    ensures Goes(plan, hs, AfterReadServerHelloDone(hs.(inbox := hs.inbox + Sends(plan, hs.state)), Good(plan)))
  {
    hide Takes;
  }

  lemma SendClientCertificateGoes(plan: Plan, hs: Hs)
    requires OnTrack(plan, hs) && hs.state.SendClientCertificate? && !plan.settled.tls13
    ensures Sends(plan, hs.state) != [] ==> AfterSendClientCertificate(hs, Good(plan)) == Stay(hs, ReadMessage)
    ensures Goes(plan, hs, AfterSendClientCertificate(hs.(inbox := hs.inbox + Sends(plan, hs.state)), Good(plan)))
  {
    hide Takes;
  }

  lemma SendClientKeyExchangeGoes(plan: Plan, hs: Hs)
    requires OnTrack(plan, hs) && hs.state.SendClientKeyExchange? && !plan.settled.tls13
    ensures Sends(plan, hs.state) != [] ==> AfterSendClientKeyExchange(hs, Good(plan)) == Stay(hs, ReadMessage)
    ensures Goes(plan, hs, AfterSendClientKeyExchange(hs.(inbox := hs.inbox + Sends(plan, hs.state)), Good(plan)))
  {
    hide Takes;
  }

  lemma SendClientCertificateVerifyGoes(plan: Plan, hs: Hs)
    requires OnTrack(plan, hs) && hs.state.SendClientCertificateVerify? && !plan.settled.tls13
    ensures Sends(plan, hs.state) != [] ==> AfterSendClientCertificateVerify(hs, Good(plan)) == Stay(hs, ReadMessage)
    ensures Goes(plan, hs, AfterSendClientCertificateVerify(hs.(inbox := hs.inbox + Sends(plan, hs.state)), Good(plan)))
  {
    hide Takes;
  }

  lemma SendClientFinishedGoes(plan: Plan, hs: Hs)
    requires OnTrack(plan, hs) && hs.state.SendClientFinished? && !plan.settled.tls13
    ensures Sends(plan, hs.state) != [] ==> AfterSendClientFinished(hs, Good(plan)) == Stay(hs, ReadMessage)
    ensures Goes(plan, hs, AfterSendClientFinished(hs.(inbox := hs.inbox + Sends(plan, hs.state)), Good(plan)))
  {
    hide Takes;
  }

  lemma FinishFlightGoes(plan: Plan, hs: Hs)
    requires OnTrack(plan, hs) && hs.state.FinishFlight? && !plan.settled.tls13
    ensures Sends(plan, hs.state) != [] ==> AfterFinishFlight(hs, Good(plan)) == Stay(hs, ReadMessage)
    ensures Goes(plan, hs, AfterFinishFlight(hs.(inbox := hs.inbox + Sends(plan, hs.state)), Good(plan)))
  {
    hide Takes;
  }

  lemma ReadSessionTicketGoes(plan: Plan, hs: Hs)
    requires OnTrack(plan, hs) && hs.state.ReadSessionTicket? && !plan.settled.tls13
    ensures Sends(plan, hs.state) != [] ==> AfterReadSessionTicket(hs, Good(plan)) == Stay(hs, ReadMessage)
    ensures Goes(plan, hs, AfterReadSessionTicket(hs.(inbox := hs.inbox + Sends(plan, hs.state)), Good(plan)))
  {
    hide Takes;
  }

  lemma ProcessChangeCipherSpecGoes(plan: Plan, hs: Hs)
    requires OnTrack(plan, hs) && hs.state.ProcessChangeCipherSpec? && !plan.settled.tls13
    ensures Sends(plan, hs.state) != [] ==> AfterProcessChangeCipherSpec(hs, Good(plan)) == Stay(hs, ReadMessage)
    ensures Goes(plan, hs, AfterProcessChangeCipherSpec(hs.(inbox := hs.inbox + Sends(plan, hs.state)), Good(plan)))
  {
    hide Takes;
  }

  lemma ReadServerFinishedGoes(plan: Plan, hs: Hs)
    requires OnTrack(plan, hs) && hs.state.ReadServerFinished? && !plan.settled.tls13
    ensures Sends(plan, hs.state) != [] ==> AfterReadServerFinished(hs, Good(plan)) == Stay(hs, ReadMessage)
    ensures Goes(plan, hs, AfterReadServerFinished(hs.(inbox := hs.inbox + Sends(plan, hs.state)), Good(plan)))
  {
    hide Takes;
  }

  lemma FinishClientHandshakeGoes(plan: Plan, hs: Hs)
    requires OnTrack(plan, hs) && hs.state.FinishClientHandshake? && !plan.settled.tls13
    ensures Sends(plan, hs.state) != [] ==> AfterFinishClientHandshake(hs, Good(plan)) == Stay(hs, ReadMessage)
    ensures Goes(plan, hs, AfterFinishClientHandshake(hs.(inbox := hs.inbox + Sends(plan, hs.state)), Good(plan)))
  {
    hide Takes;
  }

  lemma NeverThere(plan: Plan, hs: Hs)
    requires OnTrack(plan, hs)
    ensures !hs.state.Tls13?
  {
  }

  /** A turn asks for what the server sends in its state, and with that goes on. */
  lemma TurnGoes(plan: Plan, hs: Hs)
    requires OnTrack(plan, hs) && !hs.state.Done? && !plan.settled.tls13
    ensures Sends(plan, hs.state) != [] ==> Advance(hs, Good(plan)) == Stay(hs, ReadMessage)
    ensures Goes(plan, hs, Advance(hs.(inbox := hs.inbox + Sends(plan, hs.state)), Good(plan)))
  {
    hide Takes, OnTrack, Goes, Sends, Good, AfterStartConnect, AfterEnterEarlyData, AfterReadHelloVerifyRequest,
      AfterReadServerHello, AfterReadServerCertificate, AfterReadCertificateStatus, AfterVerifyServerCertificate,
      AfterReadServerKeyExchange, AfterReadCertificateRequest, AfterReadServerHelloDone, AfterSendClientCertificate,
      AfterSendClientKeyExchange, AfterSendClientCertificateVerify, AfterSendClientFinished, AfterFinishFlight,
      AfterReadSessionTicket, AfterProcessChangeCipherSpec, AfterReadServerFinished, AfterFinishClientHandshake;
    match hs.state {
      case StartConnect => StartConnectGoes(plan, hs);
      case EnterEarlyData => EnterEarlyDataGoes(plan, hs);
      case ReadHelloVerifyRequest => ReadHelloVerifyRequestGoes(plan, hs);
      case ReadServerHello => ReadServerHelloGoes(plan, hs);
      case ReadServerCertificate => ReadServerCertificateGoes(plan, hs);
      case ReadCertificateStatus => ReadCertificateStatusGoes(plan, hs);
      case VerifyServerCertificate => VerifyServerCertificateGoes(plan, hs);
      case ReadServerKeyExchange => ReadServerKeyExchangeGoes(plan, hs);
      case ReadCertificateRequest => ReadCertificateRequestGoes(plan, hs);
      case ReadServerHelloDone => ReadServerHelloDoneGoes(plan, hs);
      case SendClientCertificate => SendClientCertificateGoes(plan, hs);
      case SendClientKeyExchange => SendClientKeyExchangeGoes(plan, hs);
      case SendClientCertificateVerify => SendClientCertificateVerifyGoes(plan, hs);
      case SendClientFinished => SendClientFinishedGoes(plan, hs);
      case FinishFlight => FinishFlightGoes(plan, hs);
      case ReadSessionTicket => ReadSessionTicketGoes(plan, hs);
      case ProcessChangeCipherSpec => ProcessChangeCipherSpecGoes(plan, hs);
      case ReadServerFinished => ReadServerFinishedGoes(plan, hs);
      case FinishClientHandshake => FinishClientHandshakeGoes(plan, hs);
      case Tls13 => NeverThere(plan, hs);
      case Done =>
    }
  }

  /** The driver resolves whatever a turn that goes on waits for. */
  lemma Resolved(dtls: bool, x: Config<Hs, Event>, msgs: seq<MsgType>)
    requires !x.running && !x.hs.state.Done?
    requires x.wait.ReadMessage? || (msgs == [] && (x.wait.Ok? || x.wait.Flush? || x.wait.ReadChangeCipherSpec?))
    ensures Enabled(Client(dtls), x, Driver(Succeeded(msgs)))
    ensures var y := Next(Client(dtls), x, Driver(Succeeded(msgs)));
            y.hs == x.hs.(inbox := x.hs.inbox + msgs) && y.wait == Ok && y.running
  {
    assert x.hs.inbox + [] == x.hs.inbox;
  }

  lemma TurnEnabled(dtls: bool, x: Config<Hs, Event>, c: Choice)
    requires x.running && !x.hs.state.Done?
    ensures Enabled(Client(dtls), x, Machine(c))
  {
  }

  /** A handshake that goes as planned reaches its end. */
  lemma {:induction false} Continue(dtls: bool, plan: Plan, run: seq<Config<Hs, Event>>, steps: seq<Step<Choice>>)
      returns (run': seq<Config<Hs, Event>>, steps': seq<Step<Choice>>)
    requires IsRun(Client(dtls), run, steps) && !plan.settled.tls13
    requires var x := run[|steps|];
             && OnTrack(plan, x.hs) && (x.wait.Ok? || x.wait.Flush? || x.wait.ReadChangeCipherSpec?)
             && (x.running ==> x.wait.Ok? && !x.hs.state.Done?)
    ensures IsRun(Client(dtls), run', steps')
    ensures run'[|steps'|].hs.state.Done? && OnTrack(plan, run'[|steps'|].hs)
    decreases Rank(run[|steps|].hs.state, plan.settled.resumed)
  {
    hide Enabled, Next, Advance, OnTrack, Rank, Sends;
    run', steps' := run, steps;
    var hs := run[|steps|].hs;
    if !hs.state.Done? {
      if !run'[|steps'|].running {
        Resolved(dtls, run'[|steps'|], []);
        run', steps' := Push(Client(dtls), run', steps', Driver(Succeeded([])));
        assert hs.inbox + [] == hs.inbox;
      }
      TurnGoes(plan, hs);
      if Sends(plan, hs.state) == [] {
        assert hs.inbox + [] == hs.inbox;
      } else {
        TurnEnabled(dtls, run'[|steps'|], Good(plan));
        TurnIs(dtls, run'[|steps'|], Good(plan));
        run', steps' := Push(Client(dtls), run', steps', Machine(Good(plan)));
        Resolved(dtls, run'[|steps'|], Sends(plan, hs.state));
        run', steps' := Push(Client(dtls), run', steps', Driver(Succeeded(Sends(plan, hs.state))));
      }
      TurnEnabled(dtls, run'[|steps'|], Good(plan));
      TurnIs(dtls, run'[|steps'|], Good(plan));
      run', steps' := Push(Client(dtls), run', steps', Machine(Good(plan)));
      run', steps' := Continue(dtls, plan, run', steps');
    }
  }

  /**
   Whatever a ServerHello settles short of TLS 1.3, resumption or not, any cipher, any extensions, a client
   certificate asked for or not, over TLS or DTLS: there is a run that completes that handshake.
   */
  lemma Completes(dtls: bool, plan: Plan) returns (run: seq<Config<Hs, Event>>, steps: seq<Step<Choice>>)
    requires !plan.settled.tls13
    ensures IsRun(Client(dtls), run, steps) && run[|steps|].hs.state.Done?
    ensures run[|steps|].hs.facts ==
              FactsOf(plan).(certRequest := plan.asks && plan.settled.cipher.certAuth && !plan.settled.resumed)
  {
    hide Next, Enabled, Advance;
    run, steps := [Config(Client(dtls).start, Ok, false, [])], [];
    run, steps := Continue(dtls, plan, run, steps);
  }
}
