/**
 What the client and the server handshake share: the reasons a handshake waits, the driver
 ssl_run_handshake that resolves them, runs of a state machine under that driver, logs of events cut
 into numbered entries, and the accounts of messages read.
 */
module Handshake {

  datatype MsgType =
    | ClientHello | HelloVerifyRequest | ServerHello | Certificate | CertificateStatus | ServerKeyExchange
    | CertificateRequest | ServerHelloDone | ClientKeyExchange | CertificateVerify | NextProto | ChannelId
    | NewSessionTicket | Finished | Other

  /**
   ssl_hs_wait_t.  Paused stands for the waits that return to the caller once and are then over:
   certificate selection, x509 lookup, channel ID, private key, pending session or ticket, handoff and
   certificate verification.
   */
  datatype Wait = Ok | Error | Flush | ReadMessage | ReadChangeCipherSpec | Paused | EarlyReturn

  /** What flushing or reading comes to: it blocks, the record is dropped and reading goes on, or it succeeds. */
  datatype Io = Blocked | Discarded | Succeeded(msgs: seq<MsgType>)

  /** What ssl_run_handshake tells its caller: done, done for now, or not done. */
  datatype Returned = Completed | Early | Stopped

  /** How the driver goes on. */
  datatype Resolution = Return(wait: Wait) | Again | Run(msgs: seq<MsgType>, gotCcs: bool)

  /** The switch at the top of ssl_run_handshake's loop. */
  function Resolve(wait: Wait, io: Io): Resolution {
    match wait
    case Error => Return(Error)
    case Flush => if io.Succeeded? then Run([], false) else Return(Flush)
    case ReadMessage =>
      if io.Blocked? then Return(ReadMessage) else if io.Discarded? then Again else Run(io.msgs, false)
    case ReadChangeCipherSpec =>
      if io.Blocked? then Return(ReadChangeCipherSpec) else if io.Discarded? then Again else Run([], true)
    case Paused => Return(Ok)
    case EarlyReturn => Return(Ok)
    case Ok => Run([], false)
  }

  /** Messages seen but not yet consumed: get_message shows the first, next_message removes it. */
  predicate Shows(inbox: seq<MsgType>, typ: MsgType) {
    inbox != [] && inbox[0] == typ
  }

  function Rest(inbox: seq<MsgType>): seq<MsgType> {
    if inbox == [] then [] else inbox[1..]
  }

  // ---- Runs -------------------------------------------------------------------------------------

  /** A do_ function's effect, what it returns, and the log entries for what it did: one for each stage passed. */
  datatype Outcome<H, E> = Outcome(hs: H, wait: Wait, did: seq<seq<E>>)

  /**
   One side's state machine: where it starts, one turn of its loop given what that finds outside the
   model, whether it is at state_done, the messages read and not yet consumed, how further ones join
   them, the event of a ChangeCipherSpec read, and the message an event is the taking of.
   */
  datatype Side<!H, !C, !E> = Side(start: H, advance: (H, C) -> Outcome<H, E>, done: H -> bool,
                                   inbox: H -> seq<MsgType>, feed: (H, seq<MsgType>) -> H,
                                   gotCcs: E, message: E -> seq<MsgType>)

  /**
   A handshake at some moment.  running: between the driver's call of the state loop and its return.
   log: what has been done, the ChangeCipherSpec the driver reads included.
   */
  datatype Config<H, E> = Config(hs: H, wait: Wait, running: bool, log: seq<seq<E>>)

  /** Either the driver resolves a wait, or the state loop goes round once. */
  datatype Step<C> = Driver(io: Io) | Machine(choice: C)

  predicate Enabled<H, C, E>(side: Side<H, C, E>, x: Config<H, E>, step: Step<C>) {
    !side.done(x.hs) && (step.Machine? <==> x.running)
  }

  function Next<H, C, E>(side: Side<H, C, E>, x: Config<H, E>, step: Step<C>): Config<H, E> {
    match step
    case Machine(c) =>
      var out := side.advance(x.hs, c);
      Config(out.hs, out.wait, out.wait == Ok && !side.done(out.hs), x.log + out.did)
    case Driver(io) =>
      match Resolve(x.wait, io)
      case Return(wait) => x.(wait := wait)
      case Again => x
      case Run(msgs, gotCcs) =>
        Config(side.feed(x.hs, msgs), Ok, true, if gotCcs then x.log + [[side.gotCcs]] else x.log)
  }

  predicate IsRun<H(==), C, E(==)>(side: Side<H, C, E>, run: seq<Config<H, E>>, steps: seq<Step<C>>) {
    && |run| == |steps| + 1
    && run[0] == Config(side.start, Ok, false, [])
    && forall i | 0 <= i < |steps| :: Enabled(side, run[i], steps[i]) && run[i + 1] == Next(side, run[i], steps[i])
  }

  lemma RunExtends<H, C, E>(side: Side<H, C, E>, run: seq<Config<H, E>>, steps: seq<Step<C>>, step: Step<C>)
    requires IsRun(side, run, steps) && Enabled(side, run[|steps|], step)
    ensures IsRun(side, run + [Next(side, run[|steps|], step)], steps + [step])
  {
    hide Next, Enabled;
    var run', steps' := run + [Next(side, run[|steps|], step)], steps + [step];
    forall i | 0 <= i < |steps'|
      ensures Enabled(side, run'[i], steps'[i]) && run'[i + 1] == Next(side, run'[i], steps'[i])
    {
      if i < |steps| { assert run'[i + 1] == run[i + 1]; }
    }
  }

  /** One more step of a run. */
  lemma Push<H, C, E>(side: Side<H, C, E>, run: seq<Config<H, E>>, steps: seq<Step<C>>, step: Step<C>)
      returns (run': seq<Config<H, E>>, steps': seq<Step<C>>)
    requires IsRun(side, run, steps) && Enabled(side, run[|steps|], step)
    ensures IsRun(side, run', steps') && |steps'| == |steps| + 1 && run'[|steps'|] == Next(side, run[|steps|], step)
  {
    RunExtends(side, run, steps, step);
    run', steps' := run + [Next(side, run[|steps|], step)], steps + [step];
  }

  /** Once a turn has failed, nothing more happens: every later call reports the error again. */
  lemma {:induction false} ErrorIsFinal<H, C, E>(side: Side<H, C, E>, run: seq<Config<H, E>>, steps: seq<Step<C>>,
                                                         k: nat, i: nat)
    requires IsRun(side, run, steps) && k <= i < |run| && run[k].wait == Error && !run[k].running
    ensures run[i] == run[k]
  {
    if k < i { ErrorIsFinal(side, run, steps, k, i - 1); }
  }

  // ---- Logs -------------------------------------------------------------------------------------

  /** A log has one entry for each thing done, and an entry lists the events it consisted of. */
  function Events<E>(log: seq<seq<E>>): seq<E> {
    if log == [] then [] else Events(log[..|log| - 1]) + log[|log| - 1]
  }

  /** An event that occurs in entry j and in no other. */
  ghost predicate Only<E>(log: seq<seq<E>>, j: nat, e: E) {
    j < |log| && e in log[j] && forall i | 0 <= i < |log| && i != j :: e !in log[i]
  }

  lemma {:induction false} EventsLack<E>(log: seq<seq<E>>, e: E)
    requires forall i | 0 <= i < |log| :: e !in log[i]
    ensures e !in Events(log)
  {
    if log != [] { EventsLack(log[..|log| - 1], e); }
  }

  lemma {:induction false} EventsHave<E>(log: seq<seq<E>>, j: nat, e: E)
    requires j < |log| && e in log[j]
    ensures e in Events(log)
    decreases |log|
  {
    if j < |log| - 1 { EventsHave(log[..|log| - 1], j, e); }
  }

  /** An event that occurs just once. */
  ghost predicate Once<E>(log: seq<seq<E>>, e: E) {
    multiset(Events(log))[e] == 1
  }

  lemma {:induction false} OnceIn<E>(log: seq<seq<E>>, j: nat, e: E)
    requires Only(log, j, e) && multiset(log[j])[e] == 1
    ensures Once(log, e)
    decreases |log|
  {
    var init, last := log[..|log| - 1], log[|log| - 1];
    if j == |log| - 1 {
      EventsLack(init, e);
    } else {
      OnceIn(init, j, e);
    }
    assert multiset(Events(log)) == multiset(Events(init)) + multiset(last);
  }

  lemma NoneTwice<E>(entry: seq<E>, e: E)
    requires |entry| <= 2 && (|entry| == 2 ==> entry[0] != entry[1]) && e in entry
    ensures multiset(entry)[e] == 1
  {
    assert entry == [e] || entry == [entry[0], entry[1]];
  }

  /** Every a comes before every b, and both occur. */
  ghost predicate Precedes<E>(events: seq<E>, a: E, b: E) {
    exists k :: 0 <= k <= |events| && a in events[..k] && b in events[k..] && a !in events[k..] && b !in events[..k]
  }

  lemma PrecedesInLonger<E>(events: seq<E>, more: seq<E>, a: E, b: E)
    requires Precedes(events, a, b) && a !in more
    ensures Precedes(events + more, a, b)
  {
    var k :| 0 <= k <= |events| && a in events[..k] && b in events[k..] && a !in events[k..] && b !in events[..k];
    assert (events + more)[..k] == events[..k] && (events + more)[k..] == events[k..] + more;
  }

  lemma {:induction false} EntriesInOrder<E>(log: seq<seq<E>>, i: nat, j: nat, a: E, b: E)
    requires Only(log, i, a) && Only(log, j, b) && i < j
    ensures Precedes(Events(log), a, b)
    decreases |log|
  {
    var init, last := log[..|log| - 1], log[|log| - 1];
    if j == |log| - 1 {
      EventsLack(init, b);
      EventsHave(init, i, a);
      var k := |Events(init)|;
      assert Events(log)[..k] == Events(init) && Events(log)[k..] == last;
    } else {
      EntriesInOrder(init, i, j, a, b);
      PrecedesInLonger(Events(init), last, a, b);
    }
  }

  /** Every event in a log is in the entry that is its place, and once. */
  ghost predicate InPlace<E(!new)>(log: seq<seq<E>>, place: E -> nat) {
    forall n, e | 0 <= n < |log| && e in log[n] :: place(e) == n && multiset(log[n])[e] == 1
  }

  /** What is needed is there as soon as the log reaches its place. */
  ghost predicate NoneMissing<E(!new)>(log: seq<seq<E>>, place: E -> nat, needed: E -> bool) {
    forall e | needed(e) && place(e) < |log| :: e in log[place(e)]
  }

  lemma OnlyThere<E(!new)>(log: seq<seq<E>>, place: E -> nat, e: E)
    requires InPlace(log, place) && e in Events(log)
    ensures Only(log, place(e), e) && multiset(log[place(e)])[e] == 1
  {
    if forall i | 0 <= i < |log| :: e !in log[i] { EventsLack(log, e); }
  }

  /** In such a log what has happened happened once, and in the order of the places. */
  lemma OnceAndInOrder<E(!new)>(log: seq<seq<E>>, place: E -> nat, a: E, b: E)
    requires InPlace(log, place) && a in Events(log) && b in Events(log) && place(a) < place(b)
    ensures Once(log, a) && Once(log, b) && Precedes(Events(log), a, b)
  {
    hide InPlace;
    OnlyThere(log, place, a);
    OnlyThere(log, place, b);
    OnceIn(log, place(a), a);
    OnceIn(log, place(b), b);
    EntriesInOrder(log, place(a), place(b), a, b);
  }

  /** Once what comes later has happened, so has everything needed before it. */
  lemma NeededBefore<E(!new)>(log: seq<seq<E>>, place: E -> nat, needed: E -> bool, a: E, b: E)
    requires InPlace(log, place) && NoneMissing(log, place, needed)
    requires needed(a) && b in Events(log) && place(a) < place(b)
    ensures a in Events(log) && Once(log, a) && Once(log, b) && Precedes(Events(log), a, b)
  {
    OnlyThere(log, place, b);
    EventsHave(log, place(a), a);
    OnceAndInOrder(log, place, a, b);
  }

  lemma {:induction false} InSomeEntry<E>(log: seq<seq<E>>, e: E) returns (j: nat)
    requires e in Events(log)
    ensures j < |log| && e in log[j]
  {
    var init := log[..|log| - 1];
    if e in Events(init) { j := InSomeEntry(init, e); } else { j := |log| - 1; }
  }

  /** What the driver itself logs: a ChangeCipherSpec that was waited for and has been read. */
  predicate GetsCcs<H, C, E>(x: Config<H, E>, step: Step<C>) {
    step.Driver? && x.wait == ReadChangeCipherSpec && step.io.Succeeded?
  }

  /** Every event in a log was reported by some turn, or is the ChangeCipherSpec that the driver read. */
  lemma {:induction false} EventHasStep<H, C, E>(side: Side<H, C, E>, run: seq<Config<H, E>>, steps: seq<Step<C>>,
                                                         i: nat, e: E) returns (k: nat)
    requires IsRun(side, run, steps) && i < |run| && e in Events(run[i].log)
    ensures k < i
    ensures if steps[k].Machine? then e in Events(side.advance(run[k].hs, steps[k].choice).did)
            else e == side.gotCcs && GetsCcs(run[k], steps[k])
  {
    hide Events;
    assert i > 0 by {
      if i == 0 { EventsLack(run[0].log, e); }
    }
    if e in Events(run[i - 1].log) {
      k := EventHasStep(side, run, steps, i - 1, e);
    } else {
      k := i - 1;
      if steps[k].Machine? {
        EventsConcat(run[k].log, side.advance(run[k].hs, steps[k].choice).did);
      } else {
        OneMore(run[k].log, side.gotCcs);
      }
    }
  }

  lemma OneMore<E>(log: seq<seq<E>>, e: E)
    ensures Events(log + [[e]]) == Events(log) + [e]
  {
    assert (log + [[e]])[..|log|] == log;
  }

  // ---- Messages taken ---------------------------------------------------------------------------

  /** The messages some events are the taking of: message gives none or one for each. */
  function Received<E>(events: seq<E>, message: E -> seq<MsgType>): seq<MsgType> {
    if events == [] then [] else Received(events[..|events| - 1], message) + message(events[|events| - 1])
  }

  /** A step that takes no message reports none; one that takes the first reports it before all else. */
  ghost predicate Takes<E(!new)>(before: seq<MsgType>, after: seq<MsgType>, did: seq<seq<E>>,
                                 message: E -> seq<MsgType>)
  {
    || (after == before && forall k, e | 0 <= k < |did| && e in did[k] :: message(e) == [])
    || (|did| == 1 && did[0] != [] && before == message(did[0][0]) + after
        && forall k | 1 <= k < |did[0]| :: message(did[0][k]) == [])
  }

  lemma {:induction false} ReceivedConcat<E>(a: seq<E>, b: seq<E>, message: E -> seq<MsgType>)
    ensures Received(a + b, message) == Received(a, message) + Received(b, message)
    decreases |b|
  {
    if b == [] {
      assert a + b == a;
    } else {
      assert (a + b)[..|a + b| - 1] == a + b[..|b| - 1];
      ReceivedConcat(a, b[..|b| - 1], message);
    }
  }

  lemma {:induction false} EventsConcat<E>(a: seq<seq<E>>, b: seq<seq<E>>)
    ensures Events(a + b) == Events(a) + Events(b)
    decreases |b|
  {
    if b == [] {
      assert a + b == a;
    } else {
      assert (a + b)[..|a + b| - 1] == a + b[..|b| - 1];
      EventsConcat(a, b[..|b| - 1]);
    }
  }

  lemma {:induction false} NoneReceived<E>(events: seq<E>, message: E -> seq<MsgType>)
    requires forall k | 0 <= k < |events| :: message(events[k]) == []
    ensures Received(events, message) == []
  {
    if events != [] { NoneReceived(events[..|events| - 1], message); }
  }

  lemma {:induction false} NoneReceivedIn<E>(did: seq<seq<E>>, message: E -> seq<MsgType>)
    requires forall k, e | 0 <= k < |did| && e in did[k] :: message(e) == []
    ensures Received(Events(did), message) == []
  {
    if did != [] {
      var init, last := did[..|did| - 1], did[|did| - 1];
      forall k, e | 0 <= k < |init| && e in init[k] ensures message(e) == [] { assert e in did[k]; }
      NoneReceivedIn(init, message);
      NoneReceived(last, message);
      ReceivedConcat(Events(init), last, message);
    }
  }

  lemma TakesReceived<E(!new)>(before: seq<MsgType>, after: seq<MsgType>, did: seq<seq<E>>, message: E -> seq<MsgType>)
    requires Takes(before, after, did, message)
    ensures before == Received(Events(did), message) + after
  {
    if after == before && forall k, e | 0 <= k < |did| && e in did[k] :: message(e) == [] {
      NoneReceivedIn(did, message);
    } else {
      var first, rest := did[0][0], did[0][1..];
      assert Events(did) == [] + did[0] == [first] + rest;
      hide Events;
      NoneReceived(rest, message);
      ReceivedConcat([first], rest, message);
      assert Received([first], message) == message(first);
    }
  }

  // ---- Messages read ----------------------------------------------------------------------------

  /** What a step of the driver adds to the messages read. */
  function Brought<H, C, E>(x: Config<H, E>, step: Step<C>): seq<MsgType> {
    if step.Driver? && Resolve(x.wait, step.io).Run? then Resolve(x.wait, step.io).msgs else []
  }

  function Delivered<H, C, E>(run: seq<Config<H, E>>, steps: seq<Step<C>>, i: nat): seq<MsgType>
    requires i <= |steps| < |run|
  {
    if i == 0 then [] else Delivered(run, steps, i - 1) + Brought(run[i - 1], steps[i - 1])
  }

  /** What the accounts ask of a side: fed messages join the others, and a ChangeCipherSpec is none. */
  ghost predicate Keeps<H(!new), C, E>(side: Side<H, C, E>) {
    && side.inbox(side.start) == [] && side.message(side.gotCcs) == []
    && forall hs, msgs :: side.inbox(side.feed(hs, msgs)) == side.inbox(hs) + msgs
  }

  ghost predicate TurnTakes<H, C(!new), E(!new)>(side: Side<H, C, E>, hs: H) {
    forall c ::
      Takes(side.inbox(hs), side.inbox(side.advance(hs, c).hs), side.advance(hs, c).did, side.message)
  }

  lemma CcsIsNoMessage<H, C, E>(side: Side<H, C, E>, events: seq<E>)
    requires side.message(side.gotCcs) == []
    ensures Received(events + Events([[side.gotCcs]]), side.message) == Received(events, side.message)
  {
    assert Events([[side.gotCcs]]) == [side.gotCcs];
    ReceivedConcat(events, [side.gotCcs], side.message);
    NoneReceived([side.gotCcs], side.message);
  }

  lemma StepAccounts<H(!new), C(!new), E(!new)>(side: Side<H, C, E>, x: Config<H, E>, step: Step<C>)
    requires Keeps(side) && TurnTakes(side, x.hs)
    ensures var y := Next(side, x, step);
            Received(Events(x.log), side.message) + side.inbox(x.hs) + Brought(x, step)
            == Received(Events(y.log), side.message) + side.inbox(y.hs)
  {
    hide Takes, Events, Received;
    var y := Next(side, x, step);
    if step.Machine? {
      var out := side.advance(x.hs, step.choice);
      TakesReceived(side.inbox(x.hs), side.inbox(out.hs), out.did, side.message);
      EventsConcat(x.log, out.did);
      ReceivedConcat(Events(x.log), Events(out.did), side.message);
    } else if y.log != x.log {
      assert y.log == x.log + [[side.gotCcs]];
      EventsConcat(x.log, [[side.gotCcs]]);
      CcsIsNoMessage(side, Events(x.log));
    }
  }

  /** Every message the transport delivered was taken by the step its type is for, in order, or is still waiting. */
  lemma {:induction false} Accounted<H(!new), C(!new), E(!new)>(side: Side<H, C, E>, run: seq<Config<H, E>>,
                                                                steps: seq<Step<C>>, i: nat)
    requires IsRun(side, run, steps) && i < |run| && Keeps(side)
    requires forall k | 0 <= k < i :: TurnTakes(side, run[k].hs)
    ensures Delivered(run, steps, i) == Received(Events(run[i].log), side.message) + side.inbox(run[i].hs)
  {
    hide Next, TurnTakes, Keeps;
    if i > 0 {
      Accounted(side, run, steps, i - 1);
      StepAccounts(side, run[i - 1], steps[i - 1]);
    } else {
      StartAccounts(side);
    }
  }

  lemma StartAccounts<H(!new), C, E>(side: Side<H, C, E>)
    requires Keeps(side)
    ensures side.inbox(side.start) == []
  {
  }
}
