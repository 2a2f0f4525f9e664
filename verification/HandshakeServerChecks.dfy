/**
 What the server's handshake steps go by: no event without the checks it stands for, no failed check that the
 handshake survives, and for every kind of handshake a run that completes it.
 */
module HandshakeServerChecks {
  import opened Handshake
  import opened Wrappers
  import opened HandshakeServer

  // ---- No event without its checks --------------------------------------------------------------

  /** What a turn must have been made in, and what it must have found, to report an event. */
  predicate Earned(hs: Hs, c: Choice, e: Event) {
    match e
    case GotClientHello => hs.state.SelectParameters? && hs.inbox != [] && !c.retry && c.ok
    case SentServerHello => hs.state.SendServerHello? && c.ok
    case SentCertificate => hs.state.SendServerCertificate? && hs.facts.usesCert && c.ok
    case SentCertificateStatus =>
      hs.state.SendServerCertificate? && hs.facts.usesCert && hs.facts.statusExpected && c.ok
    case SentServerKeyExchange =>
      hs.state.SendServerKeyExchange? && hs.facts.ske && (hs.facts.usesCert ==> !c.retry) && c.ok
    case SentCertificateRequest => hs.state.SendServerHelloDone? && hs.facts.certRequest && c.ok
    case SentServerHelloDone => hs.state.SendServerHelloDone? && c.ok
    case GotCertificate => TakesCertificate(hs, c) && c.chain != []
    case GotEmptyCertificate => TakesCertificate(hs, c) && c.chain == [] && !hs.facts.ssl3 && !c.certRequired
    case CheckedCertificate => hs.state.VerifyClientCertificate? && hs.facts.certs > 0 && c.verdict == Valid
    case GotClientKeyExchange =>
      hs.state.ReadClientKeyExchange? && Shows(hs.inbox, ClientKeyExchange) && !c.retry && c.ok
    case CheckedCertificateVerify =>
      hs.state.ReadClientCertificateVerify? && hs.facts.peerKey && Shows(hs.inbox, CertificateVerify)
      && c.signatureOk && c.ok
    case GotCcs => false
    case ChangedReadKey => hs.state.ProcessChangeCipherSpec? && c.ok
    case GotNextProto => hs.state.ReadNextProto? && hs.facts.nextProto && Shows(hs.inbox, NextProto) && c.ok
    case GotChannelId =>
      hs.state.ReadChannelId? && hs.facts.channelId && Shows(hs.inbox, ChannelId) && c.signatureOk && c.ok
    case VerifiedFinished =>
      hs.state.ReadClientFinished? && Shows(hs.inbox, MsgType.Finished) && c.finishedMatches && c.ok
    case SentSessionTicket => hs.state.SendServerFinished? && hs.facts.ticketExpected && c.ok
    case SentCcs => hs.state.SendServerFinished? && c.ok
    case ChangedWriteKey => hs.state.SendServerFinished? && c.ok
    case SentFinished => hs.state.SendServerFinished? && c.ok
  }

  predicate TakesCertificate(hs: Hs, c: Choice) {
    && hs.state.ReadClientCertificate? && hs.facts.certRequest && Shows(hs.inbox, Certificate) && c.ok
    && ParsedChain(c.chain).Some?
  }

  lemma SelectParametersEarns(hs: Hs, c: Choice, e: Event)
    requires e in Events(AfterSelectParameters(hs, c).did) && hs.state.SelectParameters?
    ensures Earned(hs, c, e)
  {
    hide Takes, Shows, Rest, Events;
    var j := InSomeEntry(AfterSelectParameters(hs, c).did, e);
  }

  lemma SendServerHelloEarns(hs: Hs, c: Choice, e: Event)
    requires e in Events(AfterSendServerHello(hs, c).did) && hs.state.SendServerHello?
    ensures Earned(hs, c, e)
  {
    hide Takes, Shows, Rest, Events;
    var j := InSomeEntry(AfterSendServerHello(hs, c).did, e);
  }

  lemma SendServerCertificateEarns(hs: Hs, c: Choice, e: Event)
    requires e in Events(AfterSendServerCertificate(hs, c).did) && hs.state.SendServerCertificate?
    ensures Earned(hs, c, e)
  {
    hide Takes, Shows, Rest, Events;
    var j := InSomeEntry(AfterSendServerCertificate(hs, c).did, e);
  }

  lemma SendServerKeyExchangeEarns(hs: Hs, c: Choice, e: Event)
    requires e in Events(AfterSendServerKeyExchange(hs, c).did) && hs.state.SendServerKeyExchange?
    ensures Earned(hs, c, e)
  {
    hide Takes, Shows, Rest, Events;
    var j := InSomeEntry(AfterSendServerKeyExchange(hs, c).did, e);
  }

  lemma SendServerHelloDoneEarns(hs: Hs, c: Choice, e: Event)
    requires e in Events(AfterSendServerHelloDone(hs, c).did) && hs.state.SendServerHelloDone?
    ensures Earned(hs, c, e)
  {
    hide Takes, Shows, Rest, Events;
    var j := InSomeEntry(AfterSendServerHelloDone(hs, c).did, e);
  }

  lemma ReadClientCertificateEarns(hs: Hs, c: Choice, e: Event)
    requires e in Events(AfterReadClientCertificate(hs, c).did) && hs.state.ReadClientCertificate?
    ensures Earned(hs, c, e)
  {
    hide Takes, Shows, Rest, Events;
    var j := InSomeEntry(AfterReadClientCertificate(hs, c).did, e);
  }

  lemma VerifyClientCertificateEarns(hs: Hs, c: Choice, e: Event)
    requires e in Events(AfterVerifyClientCertificate(hs, c).did) && hs.state.VerifyClientCertificate?
    ensures Earned(hs, c, e)
  {
    hide Takes, Shows, Rest, Events;
    var j := InSomeEntry(AfterVerifyClientCertificate(hs, c).did, e);
  }

  lemma ReadClientKeyExchangeEarns(hs: Hs, c: Choice, e: Event)
    requires e in Events(AfterReadClientKeyExchange(hs, c).did) && hs.state.ReadClientKeyExchange?
    ensures Earned(hs, c, e)
  {
    hide Takes, Shows, Rest, Events;
    var j := InSomeEntry(AfterReadClientKeyExchange(hs, c).did, e);
  }

  lemma ReadClientCertificateVerifyEarns(hs: Hs, c: Choice, e: Event)
    requires e in Events(AfterReadClientCertificateVerify(hs, c).did) && hs.state.ReadClientCertificateVerify?
    ensures Earned(hs, c, e)
  {
    hide Takes, Shows, Rest, Events;
    var j := InSomeEntry(AfterReadClientCertificateVerify(hs, c).did, e);
  }

  lemma ProcessChangeCipherSpecEarns(hs: Hs, c: Choice, e: Event)
    requires e in Events(AfterProcessChangeCipherSpec(hs, c).did) && hs.state.ProcessChangeCipherSpec?
    ensures Earned(hs, c, e)
  {
    hide Takes, Shows, Rest, Events;
    var j := InSomeEntry(AfterProcessChangeCipherSpec(hs, c).did, e);
  }

  lemma ReadNextProtoEarns(hs: Hs, c: Choice, e: Event)
    requires e in Events(AfterReadNextProto(hs, c).did) && hs.state.ReadNextProto?
    ensures Earned(hs, c, e)
  {
    hide Takes, Shows, Rest, Events;
    var j := InSomeEntry(AfterReadNextProto(hs, c).did, e);
  }

  lemma ReadChannelIdEarns(hs: Hs, c: Choice, e: Event)
    requires e in Events(AfterReadChannelId(hs, c).did) && hs.state.ReadChannelId?
    ensures Earned(hs, c, e)
  {
    hide Takes, Shows, Rest, Events;
    var j := InSomeEntry(AfterReadChannelId(hs, c).did, e);
  }

  lemma ReadClientFinishedEarns(hs: Hs, c: Choice, e: Event)
    requires e in Events(AfterReadClientFinished(hs, c).did) && hs.state.ReadClientFinished?
    ensures Earned(hs, c, e)
  {
    hide Takes, Shows, Rest, Events;
    var j := InSomeEntry(AfterReadClientFinished(hs, c).did, e);
  }

  lemma SendServerFinishedEarns(hs: Hs, c: Choice, e: Event)
    requires e in Events(AfterSendServerFinished(hs, c).did) && hs.state.SendServerFinished?
    ensures Earned(hs, c, e)
  {
    hide Takes, Shows, Rest, Events;
    var j := InSomeEntry(AfterSendServerFinished(hs, c).did, e);
  }

  lemma TurnEarns(hs: Hs, c: Choice, e: Event)
    requires e in Events(Advance(hs, c).did)
    ensures Earned(hs, c, e)
  {
    hide Takes, Events, Earned, AfterSelectParameters,
      AfterSendServerHello, AfterSendServerCertificate, AfterSendServerKeyExchange, AfterSendServerHelloDone,
      AfterReadClientCertificate, AfterVerifyClientCertificate, AfterReadClientKeyExchange,
      AfterReadClientCertificateVerify, AfterProcessChangeCipherSpec, AfterReadNextProto,
      AfterReadChannelId, AfterReadClientFinished, AfterSendServerFinished;
    NothingHappened();
    match hs.state {
      case SelectParameters => SelectParametersEarns(hs, c, e);
      case SendServerHello => SendServerHelloEarns(hs, c, e);
      case SendServerCertificate => SendServerCertificateEarns(hs, c, e);
      case SendServerKeyExchange => SendServerKeyExchangeEarns(hs, c, e);
      case SendServerHelloDone => SendServerHelloDoneEarns(hs, c, e);
      case ReadClientCertificate => ReadClientCertificateEarns(hs, c, e);
      case VerifyClientCertificate => VerifyClientCertificateEarns(hs, c, e);
      case ReadClientKeyExchange => ReadClientKeyExchangeEarns(hs, c, e);
      case ReadClientCertificateVerify => ReadClientCertificateVerifyEarns(hs, c, e);
      case ProcessChangeCipherSpec => ProcessChangeCipherSpecEarns(hs, c, e);
      case ReadNextProto => ReadNextProtoEarns(hs, c, e);
      case ReadChannelId => ReadChannelIdEarns(hs, c, e);
      case ReadClientFinished => ReadClientFinishedEarns(hs, c, e);
      case SendServerFinished => SendServerFinishedEarns(hs, c, e);
      case _ => assert false;
    }
  }

  lemma NothingHappened()
    ensures Events<Event>([]) == []
  {
  }

  /**
   In any run whatever has happened was earned: by an earlier turn in the right state that found what the
   event stands for, the certificate valid, the signature good, the Finished message the expected one; only
   the ChangeCipherSpec is read by the driver, when it was waited for.
   */
  lemma EventEarned(run: seq<Config<Hs, Event>>, steps: seq<Step<Choice>>, i: nat, e: Event) returns (k: nat)
    requires IsRun(SERVER, run, steps) && i < |run| && e in Events(run[i].log)
    ensures k < i
    ensures if e.GotCcs? then GetsCcs(run[k], steps[k])
            else steps[k].Machine? && Earned(run[k].hs, steps[k].choice, e)
  {
    hide Events, Advance, Next;
    k := EventHasStep(SERVER, run, steps, i, e);
    if steps[k].Machine? {
      TurnEarns(run[k].hs, steps[k].choice, e);
    }
  }

  // ---- No failed check survived -----------------------------------------------------------------

  /** What a turn finds that must end the handshake. */
  predicate Fatal(hs: Hs, c: Choice) {
    match hs.state
    case ReadClientHello => hs.inbox != [] && (!Shows(hs.inbox, ClientHello) || (!c.retry && !c.ok))
    case SelectCertificate => hs.inbox != [] && !c.retry && !c.ok
    case SelectParameters => hs.inbox != [] && !c.retry && !c.ok
    case ReadClientCertificate =>
      hs.facts.certRequest && hs.inbox != []
      && if Shows(hs.inbox, Certificate)
         then !c.ok || ParsedChain(c.chain).None? || (c.chain == [] && (hs.facts.ssl3 || c.certRequired))
         else !hs.facts.ssl3 || !Shows(hs.inbox, ClientKeyExchange) || c.certRequired
    case VerifyClientCertificate => hs.facts.certs > 0 && c.verdict == Invalid
    case ReadClientKeyExchange => hs.inbox != [] && (!Shows(hs.inbox, ClientKeyExchange) || (!c.retry && !c.ok))
    case ReadClientCertificateVerify =>
      hs.facts.peerKey && hs.inbox != [] && (!Shows(hs.inbox, CertificateVerify) || !c.ok || !c.signatureOk)
    case ProcessChangeCipherSpec => !c.ok
    case ReadNextProto => hs.facts.nextProto && hs.inbox != [] && (!Shows(hs.inbox, NextProto) || !c.ok)
    case ReadChannelId =>
      hs.facts.channelId && hs.inbox != [] && (!Shows(hs.inbox, ChannelId) || !c.ok || !c.signatureOk)
    case ReadClientFinished => hs.inbox != [] && (!Shows(hs.inbox, MsgType.Finished) || !c.ok || !c.finishedMatches)
    case _ => false
  }

  /** An invalid certificate, a bad signature, a wrong Finished or message ends it for good, and leaves no trace. */
  lemma FatalEnds(run: seq<Config<Hs, Event>>, steps: seq<Step<Choice>>, k: nat, i: nat)
    requires IsRun(SERVER, run, steps) && k < i < |run| && steps[k].Machine?
    requires Fatal(run[k].hs, steps[k].choice)
    ensures run[i] == Config(run[k].hs, Error, false, run[k].log)
  {
    hide Next, Advance, Fatal, Enabled;
    FatalTurn(run[k].hs, steps[k].choice);
    TurnIs(run[k], steps[k].choice);
    assert run[k].log + [] == run[k].log;
    ErrorIsFinal(SERVER, run, steps, k + 1, i);
  }

  lemma FatalTurn(hs: Hs, c: Choice)
    requires Fatal(hs, c)
    ensures Advance(hs, c) == Stay(hs, Error)
  {
    hide Takes, Rest;
  }

  // ---- Every kind of handshake can be completed -------------------------------------------------

  /** A handshake to be had: what selecting parameters settles, and whether the client has a certificate. */
  datatype Plan = Plan(settled: Settled, ske: bool, hasCert: bool)

  /** Nothing fails, and no callback asks to be called again. */
  function Good(plan: Plan): Choice {
    Choice(true, false, Valid, true, true, false, plan.settled, true, plan.ske,
           if plan.hasCert then [Cert(false, true)] else [], false, true)
  }

  predicate Asks(plan: Plan) {
    !plan.settled.resumed && plan.settled.verifyPeer && plan.settled.usesCert
  }

  /** Before the parameters are selected. */
  predicate Opening(state: State) {
    state.StartAccept? || state.ReadClientHello? || state.SelectCertificate? || state.SelectParameters?
  }

  /** Before there can be ServerKeyExchange parameters, and before a client certificate can have come. */
  predicate Unkeyed(state: State) {
    state.SendServerHello? || state.SendServerCertificate?
  }

  predicate Uncertified(state: State) {
    || Unkeyed(state) || state.SendServerKeyExchange? || state.SendServerHelloDone? || state.ReadClientCertificate?
  }

  /** The facts in a state, which some states change. */
  function FactsIn(plan: Plan, state: State): Facts {
    var s := plan.settled;
    if Opening(state) then NOTHING_YET
    else
      var certified := Asks(plan) && plan.hasCert && !Uncertified(state);
      Facts(s.resumed, s.usesCert, s.statusExpected, s.ticketExpected, s.nextProto, s.channelId, Asks(plan),
            plan.ske && !s.resumed && !Unkeyed(state), if certified then 1 else 0, certified, s.ssl3)
  }

  /** In SSL 3.0 a client without a certificate goes straight on to the key exchange. */
  predicate Skips(plan: Plan) {
    Asks(plan) && plan.settled.ssl3 && !plan.hasCert
  }

  /** What is still in front when a state is reached. */
  function Left(plan: Plan, state: State): seq<MsgType> {
    if state.SelectCertificate? || state.SelectParameters? then [ClientHello]
    else if (state.VerifyClientCertificate? || state.ReadClientKeyExchange?) && Skips(plan) then [ClientKeyExchange]
    else []
  }

  /** What the client sends when the server waits in a state. */
  function Sends(plan: Plan, state: State): seq<MsgType> {
    match state
    case ReadClientHello => [ClientHello]
    case ReadClientCertificate =>
      if !Asks(plan) then [] else if Skips(plan) then [ClientKeyExchange] else [Certificate]
    case ReadClientKeyExchange => if Skips(plan) then [] else [ClientKeyExchange]
    case ReadClientCertificateVerify => if Asks(plan) && plan.hasCert then [CertificateVerify] else []
    case ReadNextProto => if plan.settled.nextProto then [NextProto] else []
    case ReadChannelId => if plan.settled.channelId then [ChannelId] else []
    case ReadClientFinished => [MsgType.Finished]
    case _ => []
  }

  /** The handshake is going as planned. */
  predicate OnTrack(plan: Plan, hs: Hs) {
    && !hs.state.Tls13? && hs.inbox == Left(plan, hs.state) && hs.facts == FactsIn(plan, hs.state)
    && (plan.settled.resumed ==> !FullOnly(hs.state))
  }

  /** Where a turn that has what it needs leads. */
  predicate Goes(plan: Plan, hs: Hs, out: Outcome<Hs, Event>) {
    && OnTrack(plan, out.hs) && (out.wait.Ok? || out.wait.Flush? || out.wait.ReadChangeCipherSpec?)
    && (out.hs.state.Done? ==> out.wait.Ok?)
    && Rank(out.hs.state, plan.settled.resumed) < Rank(hs.state, plan.settled.resumed)
  }

  lemma StartAcceptGoes(plan: Plan, hs: Hs)
    requires OnTrack(plan, hs) && hs.state.StartAccept?
    ensures Sends(plan, hs.state) != [] ==> AfterStartAccept(hs, Good(plan)) == Stay(hs, ReadMessage)
    ensures Goes(plan, hs, AfterStartAccept(hs.(inbox := hs.inbox + Sends(plan, hs.state)), Good(plan)))
  {
    hide Takes;
  }

  lemma ReadClientHelloGoes(plan: Plan, hs: Hs)
    requires OnTrack(plan, hs) && hs.state.ReadClientHello?
    ensures Sends(plan, hs.state) != [] ==> AfterReadClientHello(hs, Good(plan)) == Stay(hs, ReadMessage)
    ensures Goes(plan, hs, AfterReadClientHello(hs.(inbox := hs.inbox + Sends(plan, hs.state)), Good(plan)))
  {
    hide Takes;
  }

  lemma SelectCertificateGoes(plan: Plan, hs: Hs)
    requires OnTrack(plan, hs) && hs.state.SelectCertificate?
    ensures Sends(plan, hs.state) != [] ==> AfterSelectCertificate(hs, Good(plan)) == Stay(hs, ReadMessage)
    ensures Goes(plan, hs, AfterSelectCertificate(hs.(inbox := hs.inbox + Sends(plan, hs.state)), Good(plan)))
  {
    hide Takes;
  }

  lemma SelectParametersGoes(plan: Plan, hs: Hs)
    requires OnTrack(plan, hs) && hs.state.SelectParameters?
    ensures Sends(plan, hs.state) != [] ==> AfterSelectParameters(hs, Good(plan)) == Stay(hs, ReadMessage)
    ensures Goes(plan, hs, AfterSelectParameters(hs.(inbox := hs.inbox + Sends(plan, hs.state)), Good(plan)))
  {
    hide Takes;
  }

  lemma SendServerHelloGoes(plan: Plan, hs: Hs)
    requires OnTrack(plan, hs) && hs.state.SendServerHello?
    ensures Sends(plan, hs.state) != [] ==> AfterSendServerHello(hs, Good(plan)) == Stay(hs, ReadMessage)
    ensures Goes(plan, hs, AfterSendServerHello(hs.(inbox := hs.inbox + Sends(plan, hs.state)), Good(plan)))
  {
    hide Takes;
  }

  lemma SendServerCertificateGoes(plan: Plan, hs: Hs)
    requires OnTrack(plan, hs) && hs.state.SendServerCertificate?
    ensures Sends(plan, hs.state) != [] ==> AfterSendServerCertificate(hs, Good(plan)) == Stay(hs, ReadMessage)
    ensures Goes(plan, hs, AfterSendServerCertificate(hs.(inbox := hs.inbox + Sends(plan, hs.state)), Good(plan)))
  {
    hide Takes;
  }

  lemma SendServerKeyExchangeGoes(plan: Plan, hs: Hs)
    requires OnTrack(plan, hs) && hs.state.SendServerKeyExchange?
    ensures Sends(plan, hs.state) != [] ==> AfterSendServerKeyExchange(hs, Good(plan)) == Stay(hs, ReadMessage)
    ensures Goes(plan, hs, AfterSendServerKeyExchange(hs.(inbox := hs.inbox + Sends(plan, hs.state)), Good(plan)))
  {
    hide Takes;
  }

  lemma SendServerHelloDoneGoes(plan: Plan, hs: Hs)
    requires OnTrack(plan, hs) && hs.state.SendServerHelloDone?
    ensures Sends(plan, hs.state) != [] ==> AfterSendServerHelloDone(hs, Good(plan)) == Stay(hs, ReadMessage)
    ensures Goes(plan, hs, AfterSendServerHelloDone(hs.(inbox := hs.inbox + Sends(plan, hs.state)), Good(plan)))
  {
    hide Takes;
  }

  lemma ReadClientCertificateGoes(plan: Plan, hs: Hs)
    requires OnTrack(plan, hs) && hs.state.ReadClientCertificate?
    ensures Sends(plan, hs.state) != [] ==> AfterReadClientCertificate(hs, Good(plan)) == Stay(hs, ReadMessage)
    ensures Goes(plan, hs, AfterReadClientCertificate(hs.(inbox := hs.inbox + Sends(plan, hs.state)), Good(plan)))
  {
    hide AfterReadClientCertificate, FactsIn, Left;
    CertificateTurn(plan, hs);
  }

  lemma CertificateTurn(plan: Plan, hs: Hs)
    requires OnTrack(plan, hs) && hs.state.ReadClientCertificate?
    ensures Sends(plan, hs.state) != [] ==> AfterReadClientCertificate(hs, Good(plan)) == Stay(hs, ReadMessage)
    ensures var out := AfterReadClientCertificate(hs.(inbox := hs.inbox + Sends(plan, hs.state)), Good(plan));
            && out.hs.state.VerifyClientCertificate? && out.wait == Ok
            && out.hs.inbox == Left(plan, VerifyClientCertificate) && out.hs.facts == FactsIn(plan, VerifyClientCertificate)
  {
    hide Takes, ParsedChain, Rank;
    PlannedChain(plan);
  }

  lemma PlannedChain(plan: Plan)
    ensures ParsedChain(Good(plan).chain) == Some(if plan.hasCert then Chain(1, true) else Chain(0, false))
  {
  }

  lemma VerifyClientCertificateGoes(plan: Plan, hs: Hs)
    requires OnTrack(plan, hs) && hs.state.VerifyClientCertificate?
    ensures Sends(plan, hs.state) != [] ==> AfterVerifyClientCertificate(hs, Good(plan)) == Stay(hs, ReadMessage)
    ensures Goes(plan, hs, AfterVerifyClientCertificate(hs.(inbox := hs.inbox + Sends(plan, hs.state)), Good(plan)))
  {
    hide Takes;
  }

  lemma ReadClientKeyExchangeGoes(plan: Plan, hs: Hs)
    requires OnTrack(plan, hs) && hs.state.ReadClientKeyExchange?
    ensures Sends(plan, hs.state) != [] ==> AfterReadClientKeyExchange(hs, Good(plan)) == Stay(hs, ReadMessage)
    ensures Goes(plan, hs, AfterReadClientKeyExchange(hs.(inbox := hs.inbox + Sends(plan, hs.state)), Good(plan)))
  {
    hide Takes;
  }

  lemma ReadClientCertificateVerifyGoes(plan: Plan, hs: Hs)
    requires OnTrack(plan, hs) && hs.state.ReadClientCertificateVerify?
    ensures Sends(plan, hs.state) != [] ==> AfterReadClientCertificateVerify(hs, Good(plan)) == Stay(hs, ReadMessage)
    ensures Goes(plan, hs, AfterReadClientCertificateVerify(hs.(inbox := hs.inbox + Sends(plan, hs.state)), Good(plan)))
  {
    hide Takes;
  }

  lemma ReadChangeCipherSpecGoes(plan: Plan, hs: Hs)
    requires OnTrack(plan, hs) && hs.state.ReadChangeCipherSpec?
    ensures Sends(plan, hs.state) != [] ==> AfterReadChangeCipherSpec(hs, Good(plan)) == Stay(hs, ReadMessage)
    ensures Goes(plan, hs, AfterReadChangeCipherSpec(hs.(inbox := hs.inbox + Sends(plan, hs.state)), Good(plan)))
  {
    hide Takes;
  }

  lemma ProcessChangeCipherSpecGoes(plan: Plan, hs: Hs)
    requires OnTrack(plan, hs) && hs.state.ProcessChangeCipherSpec?
    ensures Sends(plan, hs.state) != [] ==> AfterProcessChangeCipherSpec(hs, Good(plan)) == Stay(hs, ReadMessage)
    ensures Goes(plan, hs, AfterProcessChangeCipherSpec(hs.(inbox := hs.inbox + Sends(plan, hs.state)), Good(plan)))
  {
    hide Takes;
  }

  lemma ReadNextProtoGoes(plan: Plan, hs: Hs)
    requires OnTrack(plan, hs) && hs.state.ReadNextProto?
    ensures Sends(plan, hs.state) != [] ==> AfterReadNextProto(hs, Good(plan)) == Stay(hs, ReadMessage)
    ensures Goes(plan, hs, AfterReadNextProto(hs.(inbox := hs.inbox + Sends(plan, hs.state)), Good(plan)))
  {
    hide Takes;
  }

  lemma ReadChannelIdGoes(plan: Plan, hs: Hs)
    requires OnTrack(plan, hs) && hs.state.ReadChannelId?
    ensures Sends(plan, hs.state) != [] ==> AfterReadChannelId(hs, Good(plan)) == Stay(hs, ReadMessage)
    ensures Goes(plan, hs, AfterReadChannelId(hs.(inbox := hs.inbox + Sends(plan, hs.state)), Good(plan)))
  {
    hide Takes;
  }

  lemma ReadClientFinishedGoes(plan: Plan, hs: Hs)
    requires OnTrack(plan, hs) && hs.state.ReadClientFinished?
    ensures Sends(plan, hs.state) != [] ==> AfterReadClientFinished(hs, Good(plan)) == Stay(hs, ReadMessage)
    ensures Goes(plan, hs, AfterReadClientFinished(hs.(inbox := hs.inbox + Sends(plan, hs.state)), Good(plan)))
  {
    hide Takes;
  }

  lemma SendServerFinishedGoes(plan: Plan, hs: Hs)
    requires OnTrack(plan, hs) && hs.state.SendServerFinished?
    ensures Sends(plan, hs.state) != [] ==> AfterSendServerFinished(hs, Good(plan)) == Stay(hs, ReadMessage)
    ensures Goes(plan, hs, AfterSendServerFinished(hs.(inbox := hs.inbox + Sends(plan, hs.state)), Good(plan)))
  {
    hide Takes;
  }

  lemma FinishServerHandshakeGoes(plan: Plan, hs: Hs)
    requires OnTrack(plan, hs) && hs.state.FinishServerHandshake?
    ensures Sends(plan, hs.state) != [] ==> AfterFinishServerHandshake(hs, Good(plan)) == Stay(hs, ReadMessage)
    ensures Goes(plan, hs, AfterFinishServerHandshake(hs.(inbox := hs.inbox + Sends(plan, hs.state)), Good(plan)))
  {
    hide Takes;
  }

  lemma NeverThere(plan: Plan, hs: Hs)
    requires OnTrack(plan, hs)
    ensures !hs.state.Tls13?
  {
  }

  /** A turn asks for what the client sends in its state, and with that goes on. */
  lemma TurnGoes(plan: Plan, hs: Hs)
    requires OnTrack(plan, hs) && !hs.state.Done?
    ensures Sends(plan, hs.state) != [] ==> Advance(hs, Good(plan)) == Stay(hs, ReadMessage)
    ensures Goes(plan, hs, Advance(hs.(inbox := hs.inbox + Sends(plan, hs.state)), Good(plan)))
  {
    hide Takes, OnTrack, Goes, Sends, Good, AfterStartAccept, AfterReadClientHello, AfterSelectCertificate,
      AfterSelectParameters, AfterSendServerHello, AfterSendServerCertificate, AfterSendServerKeyExchange,
      AfterSendServerHelloDone, AfterReadClientCertificate, AfterVerifyClientCertificate, AfterReadClientKeyExchange,
      AfterReadClientCertificateVerify, AfterReadChangeCipherSpec, AfterProcessChangeCipherSpec, AfterReadNextProto,
      AfterReadChannelId, AfterReadClientFinished, AfterSendServerFinished, AfterFinishServerHandshake;
    match hs.state {
      case StartAccept => StartAcceptGoes(plan, hs);
      case ReadClientHello => ReadClientHelloGoes(plan, hs);
      case SelectCertificate => SelectCertificateGoes(plan, hs);
      case SelectParameters => SelectParametersGoes(plan, hs);
      case SendServerHello => SendServerHelloGoes(plan, hs);
      case SendServerCertificate => SendServerCertificateGoes(plan, hs);
      case SendServerKeyExchange => SendServerKeyExchangeGoes(plan, hs);
      case SendServerHelloDone => SendServerHelloDoneGoes(plan, hs);
      case ReadClientCertificate => ReadClientCertificateGoes(plan, hs);
      case VerifyClientCertificate => VerifyClientCertificateGoes(plan, hs);
      case ReadClientKeyExchange => ReadClientKeyExchangeGoes(plan, hs);
      case ReadClientCertificateVerify => ReadClientCertificateVerifyGoes(plan, hs);
      case ReadChangeCipherSpec => ReadChangeCipherSpecGoes(plan, hs);
      case ProcessChangeCipherSpec => ProcessChangeCipherSpecGoes(plan, hs);
      case ReadNextProto => ReadNextProtoGoes(plan, hs);
      case ReadChannelId => ReadChannelIdGoes(plan, hs);
      case ReadClientFinished => ReadClientFinishedGoes(plan, hs);
      case SendServerFinished => SendServerFinishedGoes(plan, hs);
      case FinishServerHandshake => FinishServerHandshakeGoes(plan, hs);
      case Tls13 => NeverThere(plan, hs);
      case Done =>
    }
  }

  /** The driver resolves whatever a turn that goes on waits for. */
  lemma Resolved(x: Config<Hs, Event>, msgs: seq<MsgType>)
    requires !x.running && !x.hs.state.Done?
    requires x.wait.ReadMessage? || (msgs == [] && (x.wait.Ok? || x.wait.Flush? || x.wait.ReadChangeCipherSpec?))
    ensures Enabled(SERVER, x, Driver(Succeeded(msgs)))
    ensures var y := Next(SERVER, x, Driver(Succeeded(msgs)));
            y.hs == x.hs.(inbox := x.hs.inbox + msgs) && y.wait == Ok && y.running
  {
    assert x.hs.inbox + [] == x.hs.inbox;
  }

  lemma TurnEnabled(x: Config<Hs, Event>, c: Choice)
    requires x.running && !x.hs.state.Done?
    ensures Enabled(SERVER, x, Machine(c))
  {
  }

  /** A handshake that goes as planned reaches its end. */
  lemma {:induction false} Continue(plan: Plan, run: seq<Config<Hs, Event>>, steps: seq<Step<Choice>>)
      returns (run': seq<Config<Hs, Event>>, steps': seq<Step<Choice>>)
    requires IsRun(SERVER, run, steps)
    requires var x := run[|steps|];
             && OnTrack(plan, x.hs) && (x.wait.Ok? || x.wait.Flush? || x.wait.ReadChangeCipherSpec?)
             && (x.running ==> x.wait.Ok? && !x.hs.state.Done?)
    ensures IsRun(SERVER, run', steps')
    ensures run'[|steps'|].hs.state.Done? && OnTrack(plan, run'[|steps'|].hs)
    decreases Rank(run[|steps|].hs.state, plan.settled.resumed)
  {
    hide Enabled, Next, Advance, OnTrack, Rank, Sends;
    run', steps' := run, steps;
    var hs := run[|steps|].hs;
    if !hs.state.Done? {
      if !run'[|steps'|].running {
        Resolved(run'[|steps'|], []);
        run', steps' := Push(SERVER, run', steps', Driver(Succeeded([])));
        assert hs.inbox + [] == hs.inbox;
      }
      TurnGoes(plan, hs);
      if Sends(plan, hs.state) == [] {
        assert hs.inbox + [] == hs.inbox;
      } else {
        TurnEnabled(run'[|steps'|], Good(plan));
        TurnIs(run'[|steps'|], Good(plan));
        run', steps' := Push(SERVER, run', steps', Machine(Good(plan)));
        Resolved(run'[|steps'|], Sends(plan, hs.state));
        run', steps' := Push(SERVER, run', steps', Driver(Succeeded(Sends(plan, hs.state))));
      }
      TurnEnabled(run'[|steps'|], Good(plan));
      TurnIs(run'[|steps'|], Good(plan));
      run', steps' := Push(SERVER, run', steps', Machine(Good(plan)));
      run', steps' := Continue(plan, run', steps');
    }
  }

  /**
   Whatever the parameters selected short of TLS 1.3, resumption or not, any cipher, any extensions, a client
   certificate asked for or not, given or not: there is a run that completes that handshake.
   */
  lemma Completes(plan: Plan) returns (run: seq<Config<Hs, Event>>, steps: seq<Step<Choice>>)
    ensures IsRun(SERVER, run, steps) && run[|steps|].hs.state.Done?
    ensures run[|steps|].hs.facts == FactsIn(plan, Done)
  {
    hide Next, Enabled, Advance;
    run, steps := [Config(SERVER.start, Ok, false, [])], [];
    run, steps := Continue(plan, run, steps);
  }
}
