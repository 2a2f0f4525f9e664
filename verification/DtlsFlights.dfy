/**
 What the current flight is: in every run of the transport, the messages that a flush or a retransmission sends
 are those queued since the flight began, and a flight begins where the one before is over.
 */
module DtlsFlights {
  import opened Bytes
  import opened DtlsRecord
  import opened DtlsTransport
  import S = DtlsSender

  // ---- Sending leaves the queue alone -----------------------------------------------------------

  ghost predicate SameFlight(st: S.SendState, st': S.SendState) {
    st'.msgs == st.msgs && st'.complete == st.complete && st'.hasReply == st.hasReply
  }

  lemma {:induction false} PacketKeepsFlight(st: S.SendState, maxOut: nat, bytes: seq<byte>,
                                             plains: seq<S.Plain>)
    requires WriteInv(st.ws)
    ensures SameFlight(st, S.SealPacket(st, maxOut, bytes, plains).0)
    decreases |st.msgs| - st.cur.written
  {
    hide S.SealMessage;
    if st.cur.written < |st.msgs| {
      S.SealMessageFrame(st, maxOut);
      var (st', result) := S.SealMessage(st, maxOut);
      if result.Progress? && !result.partial {
        PacketKeepsFlight(st'.(cur := S.Cursor(st.cur.written + 1, st'.cur.offset)),
                          if |result.bytes| <= maxOut then maxOut - |result.bytes| else 0,
                          bytes + result.bytes, plains + [result.plain]);
      }
    }
  }

  lemma {:induction false} SendKeepsFlight(st: S.SendState, mtu: nat, bio: nat -> bool, k: nat, flushOk: bool)
    requires WriteInv(st.ws) && S.CursorOk(st.msgs, st.cur)
    ensures SameFlight(st, S.SendFlight(st, mtu, bio, k, flushOk).0)
    decreases |st.msgs| - st.cur.written, S.BodyLeft(st)
  {
    hide S.SealPacket;
    if st.cur.written < |st.msgs| {
      S.PacketAdvances(st, mtu);
      PacketKeepsFlight(st, mtu, [], []);
      var (st', result) := S.SealPacket(st, mtu, [], []);
      if result.Packet? && bio(k) { SendKeepsFlight(st', mtu, bio, k + 1, flushOk); }
    }
  }

  // ---- The flight by the history ----------------------------------------------------------------

  predicate IsQueue(step: Step) {
    step.Queue? || step.QueueChangeCipherSpec?
  }

  /** What a call of add_outgoing was given. */
  function Given(w: World, step: Step): S.OutMsg
    requires IsQueue(step)
  {
    if step.Queue? then S.OutMsg(S.Raw(step.typ, w.snd.writeSeq, step.body), w.snd.ws.epoch, false)
    else S.OutMsg([], w.snd.ws.epoch, true)
  }

  /** The message a step queued, if add_outgoing returned true. */
  function QueuedBy(w: World, step: Step): seq<S.OutMsg> {
    if IsQueue(step) && S.AddOutgoing(w.snd, Given(w, step).data, Given(w, step).isCcs).1 then [Given(w, step)]
    else []
  }

  function Queued(run: seq<World>, steps: seq<Step>, j: nat, n: nat): seq<S.OutMsg>
    requires j <= n <= |steps| < |run|
  {
    if j == n then [] else Queued(run, steps, j, n - 1) + QueuedBy(run[n - 1], steps[n - 1])
  }

  /** The flight was flushed in this stretch of the run. */
  ghost predicate Flushed(steps: seq<Step>, j: nat, n: nat)
    requires j <= n <= |steps|
  {
    exists a: nat :: j <= a < n && steps[a].Flush?
  }

  /** The flight was flushed, and after that an answer came. */
  ghost predicate Answered(steps: seq<Step>, j: nat, n: nat)
    requires j <= n <= |steps|
  {
    exists b: nat :: j <= b < n && steps[b].FlightAnswered? && Flushed(steps, j, b)
  }

  /** A flight begins with the first message after a flush, or when the handshake is done and answered. */
  ghost predicate StartsFlight(w: World, step: Step) {
    (IsQueue(step) && w.snd.complete) || (step.HandshakeDone? && w.snd.hasReply)
  }

  ghost predicate Begins(run: seq<World>, steps: seq<Step>, j: nat)
    requires j <= |steps| < |run|
  {
    j == 0 || (j < |steps| && StartsFlight(run[j], steps[j]))
  }

  ghost predicate IsFlight(run: seq<World>, steps: seq<Step>, j: nat, n: nat)
    requires j <= n <= |steps| < |run|
  {
    && Begins(run, steps, j) && (0 < j ==> j < n)
    && run[n].snd.msgs == Queued(run, steps, j, n)
    && (run[n].snd.complete <==> Flushed(steps, j, n))
    && (run[n].snd.hasReply <==> Answered(steps, j, n))
  }

  lemma FlushedOneMore(steps: seq<Step>, j: nat, n: nat)
    requires j <= n < |steps|
    ensures Flushed(steps, j, n + 1) <==> Flushed(steps, j, n) || steps[n].Flush?
    ensures Answered(steps, j, n + 1)
            <==> Answered(steps, j, n) || (steps[n].FlightAnswered? && Flushed(steps, j, n))
  {
    if Flushed(steps, j, n) {
      var a: nat :| j <= a < n && steps[a].Flush?;
      assert j <= a < n + 1 && steps[a].Flush?;
    }
    hide Flushed;
    if Answered(steps, j, n) {
      var b: nat :| j <= b < n && steps[b].FlightAnswered? && Flushed(steps, j, b);
      assert j <= b < n + 1 && steps[b].FlightAnswered? && Flushed(steps, j, b);
    }
  }

  /** A step that begins no flight goes on with the current one. */
  lemma SameFlightGoesOn(keys: Keys, w: World, step: Step)
    requires Sane(w) && Enabled(w, step)
    requires !StartsFlight(w, step)
    ensures var snd := Next(keys, w, step).snd;
            && snd.msgs == w.snd.msgs + QueuedBy(w, step)
            && (snd.complete <==> w.snd.complete || step.Flush?)
            && (snd.hasReply <==> w.snd.hasReply || (step.FlightAnswered? && w.snd.complete))
  {
    hide S.SendFlight, OpenRecord, SameFlight;
    match step {
      case Flush(mtu, bio, flushOk) => SendStep(w.snd.(complete := true), mtu, bio, flushOk);
      case Retransmit(mtu, bio, flushOk) => SendStep(S.Rewind(w.snd), mtu, bio, flushOk);
      case _ =>
    }
  }

  lemma SendStep(st: S.SendState, mtu: nat, bio: nat -> bool, flushOk: bool)
    requires WriteInv(st.ws) && S.CursorOk(st.msgs, st.cur)
    ensures var st' := S.SendFlight(st, mtu, bio, 0, flushOk).0;
            st'.msgs == st.msgs && st'.complete == st.complete && st'.hasReply == st.hasReply
  {
    SendKeepsFlight(st, mtu, bio, 0, flushOk);
  }

  /** A step that begins a flight leaves only its own message in it. */
  lemma FlightBegins(keys: Keys, w: World, step: Step)
    requires Sane(w) && Enabled(w, step)
    requires StartsFlight(w, step)
    ensures var snd := Next(keys, w, step).snd;
            snd.msgs == QueuedBy(w, step) && !snd.complete && !snd.hasReply
  {
  }

  /**
   In every run: the queue holds exactly what was queued since some step at which a flight begins; it counts as
   complete if and only if it was flushed since, and as answered if and only if an answer came after that. A
   message queued after the flush would have begun another.
   */
  lemma {:induction false} FlightSince(keys: Keys, run: seq<World>, steps: seq<Step>, n: nat) returns (j: nat)
    requires IsRun(keys, run, steps) && n <= |steps|
    ensures j <= n && IsFlight(run, steps, j, n)
  {
    hide Next, Sane, Enabled, QueuedBy, Flushed, Answered;
    if n == 0 {
      j := 0;
      FlushedNowhere(steps);
    } else {
      j := FlightSince(keys, run, steps, n - 1);
      FlightStep(keys, run, steps, j, n - 1);
      if StartsFlight(run[n - 1], steps[n - 1]) { j := n - 1; }
    }
  }

  lemma FlushedNowhere(steps: seq<Step>)
    ensures !Flushed(steps, 0, 0) && !Answered(steps, 0, 0)
  {
  }

  lemma FlightStep(keys: Keys, run: seq<World>, steps: seq<Step>, j: nat, n: nat)
    requires IsRun(keys, run, steps) && j <= n < |steps| && IsFlight(run, steps, j, n)
    ensures if StartsFlight(run[n], steps[n]) then IsFlight(run, steps, n, n + 1)
            else IsFlight(run, steps, j, n + 1)
  {
    hide Next, Sane, Enabled, QueuedBy, Flushed, Answered;
    if StartsFlight(run[n], steps[n]) {
      FlightBegins(keys, run[n], steps[n]);
      FlushedOneMore(steps, n, n);
      NotYet(steps, n);
      assert Queued(run, steps, n, n) == [];
    } else {
      SameFlightGoesOn(keys, run[n], steps[n]);
      FlushedOneMore(steps, j, n);
    }
  }

  lemma NotYet(steps: seq<Step>, n: nat)
    requires n < |steps|
    ensures !Flushed(steps, n, n) && !Answered(steps, n, n)
  {
  }
}
