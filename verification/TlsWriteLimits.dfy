/**
 What the TLS writer keeps besides the order of the stream: the sizes of records, the limit on early data,
 handshake octets handed to it, silence after a closing alert; what a bad retry gets; and that over a
 transport that takes what it is given a write is done in one call.
 */
module TlsWriteLimits {
  import opened Wrappers
  import opened Bytes
  import opened TlsBuffer
  import opened TlsWrite

  // ---- What one record does to the log ----------------------------------------------------------

  /** The entries sealing one record makes. */
  function Entries(st: State, typ: byte, data: seq<byte>, bytes: seq<byte>): seq<Emitted> {
    (if st.flight.Some? then [Flight(st.flight.value)] else []) + [Record(typ, data, bytes)]
  }

  /** do_ssl3_write leaves the log, moves the waiting handshake data into it, or seals this record after that. */
  lemma DoWriteLogs(cfg: Config, st: State, typ: byte, addr: nat, data: seq<byte>) returns (bytes: seq<byte>)
    requires PendingOk(st)
    ensures var st' := DoWrite(cfg, st, typ, addr, data).0;
            || (st'.log == st.log && st'.flight == st.flight && (st'.pending == st.pending || st'.pending.None?))
            || (st.pending.None? && st'.pending.None? && st.flight.Some? && st'.flight.None?
                && st'.log == st.log + [Flight(st.flight.value)])
            || (st.pending.None? && st'.flight.None? && data != []
                && st'.log == st.log + Entries(st, typ, data, bytes)
                && (st'.pending.None? || st'.pending.value == Pending(|data|, addr, typ, |data|)))
    ensures DoWrite(cfg, st, typ, addr, data).0.earlyLeft == st.earlyLeft
  {
    hide Flush;
    var st1 := TakeFlight(st);
    var sealed := cfg.seal(st1.sealed, typ, data);
    bytes := if sealed.Some? then sealed.value else [];
    if st.flight.Some? {
      assert st.log + [Flight(st.flight.value)] + [Record(typ, data, bytes)] == st.log + Entries(st, typ, data, bytes);
    } else {
      assert st.log + [Record(typ, data, bytes)] == st.log + Entries(st, typ, data, bytes);
    }
  }

  // ---- Records are no longer than they may be ---------------------------------------------------

  predicate EntryFits(cfg: Config, e: Emitted) {
    e.Record? && e.typ == RT_APPLICATION_DATA ==> 1 <= |e.plain| <= cfg.maxFragment
  }

  predicate LogFits(cfg: Config, log: seq<Emitted>) {
    forall i | 0 <= i < |log| :: EntryFits(cfg, log[i])
  }

  lemma DoWriteFits(cfg: Config, st: State, typ: byte, addr: nat, data: seq<byte>)
    requires PendingOk(st) && LogFits(cfg, st.log) && (typ == RT_APPLICATION_DATA ==> |data| <= cfg.maxFragment)
    ensures LogFits(cfg, DoWrite(cfg, st, typ, addr, data).0.log)
  {
    var bytes := DoWriteLogs(cfg, st, typ, addr, data);
    hide DoWrite;
  }

  lemma {:induction false} LoopFits(cfg: Config, st: State, addr: nat, data: seq<byte>, tot: nat)
    requires PendingOk(st) && LogFits(cfg, st.log) && tot <= |data|
    ensures LogFits(cfg, WriteLoop(cfg, st, addr, data, tot).0.log)
    decreases |data| - tot
  {
    hide DoWrite, WriteLoop, LogFits;
    LoopStep(cfg, st, addr, data, tot);
    var max := RecordLimit(cfg, st);
    if max.None? {
      SameLogFits(cfg, st, st.(wnum := tot));
    } else {
      var nw := Min(|data| - tot, max.value);
      DoWriteFits(cfg, st, RT_APPLICATION_DATA, addr + tot, data[tot..tot + nw]);
      var (st', ret) := DoWrite(cfg, st, RT_APPLICATION_DATA, addr + tot, data[tot..tot + nw]);
      if ret > 0 && ret != |data| - tot && !cfg.partialWrite {
        LoopFits(cfg, Spend(st', ret), addr, data, tot + ret);
      }
    }
  }

  lemma SameLogFits(cfg: Config, st: State, st': State)
    requires LogFits(cfg, st.log) && st'.log == st.log
    ensures LogFits(cfg, st'.log)
  {
  }

  lemma {:induction false} FlightOutFits(cfg: Config, st: State)
    requires LogFits(cfg, st.log) && st.flight.Some?
    ensures LogFits(cfg, FlightOut(cfg, st).0.log)
    decreases |FlightBytes(st)|
  {
    FlightStep(cfg, st);
    hide FlightOut;
    var left := st.flight.value;
    if left != [] && cfg.bio(st.writes) > 0 {
      var n := Min(cfg.bio(st.writes), |left|);
      FlightOutFits(cfg, st.(wire := st.wire + left[..n], log := st.log + [Flight(left[..n])],
                             flight := Some(left[n..]), writes := st.writes + 1));
    }
  }

  lemma StepFits(cfg: Config, stream: seq<byte>, run: Run, step: Step)
    requires Enabled(stream, run, step) && LogFits(cfg, run.st.log)
    ensures LogFits(cfg, Next(cfg, stream, run, step).st.log)
  {
    hide WriteLoop, DoWrite, FlightOut, Flush, LogFits;
    match step
    case Write(len, addr) =>
      if !run.st.shutdown && len >= run.st.wnum {
        LoopFits(cfg, run.st.(wnum := 0), addr, stream[run.acked..run.acked + len], run.st.wnum);
      }
    case Alert(alert) =>
      if !run.st.shutdown && run.st.buffer == [] { DoWriteFits(cfg, run.st.(shutdown := true), RT_ALERT, 0, alert); }
    case SendFlight(_) =>
      if run.st.flight.Some? && !run.st.shutdown && Flush(cfg, run.st).1 > 0 {
        FlightOutFits(cfg, Flush(cfg, run.st).0);
      }
    case _ =>
  }

  /** A run, whatever the caller presents on a retry. */
  predicate IsAnyRun(cfg: Config, stream: seq<byte>, run: seq<Run>, steps: seq<Step>) {
    && |run| == |steps| + 1 && run[0].acked == 0 && run[0].st.wnum == 0
    && run[0].st.log == [] && run[0].st.pending.None?
    && forall i | 0 <= i < |steps| ::
         Enabled(stream, run[i], steps[i]) && run[i + 1] == Next(cfg, stream, run[i], steps[i])
  }

  /** No application record ever sealed is empty or over the fragment limit. */
  lemma {:induction false} RecordsFit(cfg: Config, stream: seq<byte>, run: seq<Run>, steps: seq<Step>, n: nat)
    requires IsAnyRun(cfg, stream, run, steps) && n <= |steps|
    ensures LogFits(cfg, run[n].st.log)
  {
    hide Next, Enabled;
    if n > 0 {
      RecordsFit(cfg, stream, run, steps, n - 1);
      StepFits(cfg, stream, run[n - 1], steps[n - 1]);
    }
  }

  // ---- Early data stays within its limit --------------------------------------------------------

  /** What may still be written as early data is the limit less what has been sealed and reported. */
  predicate Early(limit: nat, st: State) {
    st.earlyLeft.Some? ==>
      PendingLen(st) <= st.earlyLeft.value && |AppData(st.log)| + st.earlyLeft.value == limit + PendingLen(st)
  }

  /** What a log gains by some more entries. */
  lemma EntriesData(log: seq<Emitted>, st: State, typ: byte, data: seq<byte>, bytes: seq<byte>)
    ensures AppData(log + Entries(st, typ, data, bytes))
            == AppData(log) + if typ == RT_APPLICATION_DATA then data else []
    ensures FlightData(log + Entries(st, typ, data, bytes)) == FlightData(log) + FlightBytes(st)
  {
    var r := Record(typ, data, bytes);
    if st.flight.Some? {
      var f := Flight(st.flight.value);
      Appended(log, f);
      Appended(log + [f], r);
      FlightAppended(log, f);
      FlightAppended(log + [f], r);
      assert log + Entries(st, typ, data, bytes) == log + [f] + [r];
      assert AppData(log) + [] == AppData(log);
    } else {
      Appended(log, r);
      FlightAppended(log, r);
      assert log + Entries(st, typ, data, bytes) == log + [r];
    }
  }

  /** One round: a record of no more than may be written, and what it leaves of the limit. */
  lemma RoundEarly(cfg: Config, limit: nat, st: State, addr: nat, data: seq<byte>)
    requires PendingOk(st) && Early(limit, st) && (st.earlyLeft.Some? ==> |data| <= st.earlyLeft.value)
    ensures var (st', ret) := DoWrite(cfg, st, RT_APPLICATION_DATA, addr, data);
            Early(limit, if ret > 0 then Spend(st', ret) else st')
  {
    hide AppData;
    var bytes := DoWriteLogs(cfg, st, RT_APPLICATION_DATA, addr, data);
    EntriesData(st.log, st, RT_APPLICATION_DATA, data, bytes);
    if st.flight.Some? { Appended(st.log, Flight(st.flight.value)); }
    DoWriteTells(cfg, st, addr, data);
    hide DoWrite;
  }

  /** What do_ssl3_write reports: the pending record's length, or its own; if nothing, a record may pend. */
  lemma DoWriteTells(cfg: Config, st: State, addr: nat, data: seq<byte>)
    requires PendingOk(st)
    ensures var (st', ret) := DoWrite(cfg, st, RT_APPLICATION_DATA, addr, data);
            && (ret > 0 ==> ret == if st.pending.Some? then PendingLen(st) else |data|)
            && (ret > 0 && st.pending.None? ==> |st'.log| > |st.log| + if st.flight.Some? then 1 else 0)
            && (ret <= 0 && st.pending.Some? ==> st'.pending == st.pending && st'.log == st.log)
            && (ret <= 0 && st.pending.None? ==>
                  (st'.pending.Some? <==> |st'.log| > |st.log| + if st.flight.Some? then 1 else 0))
  {
    hide Flush;
  }

  lemma {:induction false} LoopEarly(cfg: Config, limit: nat, st: State, addr: nat, data: seq<byte>, tot: nat)
    requires PendingOk(st) && Early(limit, st) && tot <= |data|
    ensures Early(limit, WriteLoop(cfg, st, addr, data, tot).0)
    decreases |data| - tot
  {
    hide DoWrite, WriteLoop, AppData;
    LoopStep(cfg, st, addr, data, tot);
    var max := RecordLimit(cfg, st);
    if max.Some? {
      var nw := Min(|data| - tot, max.value);
      RoundEarly(cfg, limit, st, addr + tot, data[tot..tot + nw]);
      var (st', ret) := DoWrite(cfg, st, RT_APPLICATION_DATA, addr + tot, data[tot..tot + nw]);
      if ret > 0 && ret != |data| - tot && !cfg.partialWrite {
        LoopEarly(cfg, limit, Spend(st', ret), addr, data, tot + ret);
      }
    }
  }

  lemma AlertEarly(cfg: Config, limit: nat, st: State, alert: seq<byte>)
    requires PendingOk(st) && Early(limit, st)
    ensures Early(limit, DoWrite(cfg, st, RT_ALERT, 0, alert).0)
  {
    hide AppData;
    var bytes := DoWriteLogs(cfg, st, RT_ALERT, 0, alert);
    EntriesData(st.log, st, RT_ALERT, alert, bytes);
    if st.flight.Some? { Appended(st.log, Flight(st.flight.value)); }
    AlertTells(cfg, st, alert);
    hide DoWrite;
  }

  lemma AlertTells(cfg: Config, st: State, alert: seq<byte>)
    requires PendingOk(st)
    ensures PendingLen(DoWrite(cfg, st, RT_ALERT, 0, alert).0) == PendingLen(st)
  {
    hide Flush;
  }

  // ---- Handshake octets are neither lost nor repeated -------------------------------------------

  /** The handshake octets in a log. */
  function FlightData(log: seq<Emitted>): seq<byte> {
    if log == [] then []
    else FlightData(log[..|log| - 1]) + var e := log[|log| - 1]; if e.Flight? then e.bytes else []
  }

  lemma FlightAppended(log: seq<Emitted>, e: Emitted)
    ensures FlightData(log + [e]) == FlightData(log) + if e.Flight? then e.bytes else []
  {
    assert (log + [e])[..|log|] == log;
  }

  /** What has been handed to the writer by the first n steps. */
  function Queued(steps: seq<Step>, n: nat): seq<byte>
    requires n <= |steps|
  {
    if n == 0 then [] else Queued(steps, n - 1) + if steps[n - 1].QueueFlight? then steps[n - 1].bytes else []
  }

  /** All handshake octets so far: those that went out before, and those still waiting. */
  function HandshakeSoFar(st: State): seq<byte> {
    FlightData(st.log) + FlightBytes(st)
  }

  lemma DoWriteHandshake(cfg: Config, st: State, typ: byte, addr: nat, data: seq<byte>)
    requires PendingOk(st)
    ensures HandshakeSoFar(DoWrite(cfg, st, typ, addr, data).0) == HandshakeSoFar(st)
  {
    hide FlightData;
    var bytes := DoWriteLogs(cfg, st, typ, addr, data);
    EntriesData(st.log, st, typ, data, bytes);
    if st.flight.Some? { FlightAppended(st.log, Flight(st.flight.value)); }
    hide DoWrite;
    assert FlightData(st.log) + FlightBytes(st) + [] == FlightData(st.log) + FlightBytes(st);
  }

  lemma {:induction false} LoopHandshake(cfg: Config, st: State, addr: nat, data: seq<byte>, tot: nat)
    requires PendingOk(st) && tot <= |data|
    ensures HandshakeSoFar(WriteLoop(cfg, st, addr, data, tot).0) == HandshakeSoFar(st)
    decreases |data| - tot
  {
    hide DoWrite, WriteLoop, FlightData;
    LoopStep(cfg, st, addr, data, tot);
    var max := RecordLimit(cfg, st);
    if max.Some? {
      var nw := Min(|data| - tot, max.value);
      DoWriteHandshake(cfg, st, RT_APPLICATION_DATA, addr + tot, data[tot..tot + nw]);
      var (st', ret) := DoWrite(cfg, st, RT_APPLICATION_DATA, addr + tot, data[tot..tot + nw]);
      if ret > 0 && ret != |data| - tot && !cfg.partialWrite {
        LoopHandshake(cfg, Spend(st', ret), addr, data, tot + ret);
      }
    }
  }

  lemma {:induction false} FlightOutHandshake(cfg: Config, st: State)
    requires st.flight.Some?
    ensures HandshakeSoFar(FlightOut(cfg, st).0) == HandshakeSoFar(st)
    ensures FlightOut(cfg, st).1 > 0 ==> FlightBytes(FlightOut(cfg, st).0) == []
    decreases |FlightBytes(st)|
  {
    hide FlightOut, FlightData;
    FlightStep(cfg, st);
    var left := st.flight.value;
    if left != [] && cfg.bio(st.writes) > 0 {
      var n := Min(cfg.bio(st.writes), |left|);
      var st' := st.(wire := st.wire + left[..n], log := st.log + [Flight(left[..n])], flight := Some(left[n..]),
                     writes := st.writes + 1);
      FlightAppended(st.log, Flight(left[..n]));
      assert FlightData(st.log) + left[..n] + left[n..] == FlightData(st.log) + left;
      FlightOutHandshake(cfg, st');
    }
  }

  lemma StepKeeps(cfg: Config, stream: seq<byte>, limit: nat, run: Run, step: Step)
    requires Enabled(stream, run, step)
    ensures var st' := Next(cfg, stream, run, step).st;
            && (Early(limit, run.st) ==> Early(limit, st'))
            && HandshakeSoFar(st') == HandshakeSoFar(run.st) + if step.QueueFlight? then step.bytes else []
  {
    hide WriteLoop, DoWrite, FlightOut, Flush, FlightData, AppData;
    var st := run.st;
    assert HandshakeSoFar(st) + [] == HandshakeSoFar(st);
    match step
    case Write(len, addr) =>
      if !st.shutdown && len >= st.wnum {
        LoopHandshake(cfg, st.(wnum := 0), addr, stream[run.acked..run.acked + len], st.wnum);
        if Early(limit, st) {
          LoopEarly(cfg, limit, st.(wnum := 0), addr, stream[run.acked..run.acked + len], st.wnum);
        }
      }
    case Alert(alert) =>
      if !st.shutdown && st.buffer == [] {
        DoWriteHandshake(cfg, st.(shutdown := true), RT_ALERT, 0, alert);
        if Early(limit, st) { AlertEarly(cfg, limit, st.(shutdown := true), alert); }
      }
    case QueueFlight(bytes) =>
      assert FlightData(st.log) + (FlightBytes(st) + bytes) == FlightData(st.log) + FlightBytes(st) + bytes;
    case SendFlight(_) => SendKeeps(cfg, limit, st, step.flushOk);
    case EarlyDataOver =>
  }

  lemma SendKeeps(cfg: Config, limit: nat, st: State, flushOk: bool)
    ensures var st' := FlushFlight(cfg, st, flushOk).0;
            (Early(limit, st) ==> Early(limit, st')) && HandshakeSoFar(st') == HandshakeSoFar(st)
  {
    hide FlightOut, Flush, FlightData, AppData;
    if st.flight.Some? && !st.shutdown && Flush(cfg, st).1 > 0 {
      var st1 := Flush(cfg, st).0;
      FlightOutHandshake(cfg, st1);
      FlightOutData(cfg, st1);
    }
  }

  lemma {:induction false} FlightOutData(cfg: Config, st: State)
    requires st.flight.Some?
    ensures AppData(FlightOut(cfg, st).0.log) == AppData(st.log)
    decreases |FlightBytes(st)|
  {
    hide FlightOut, AppData;
    FlightStep(cfg, st);
    var left := st.flight.value;
    if left != [] && cfg.bio(st.writes) > 0 {
      var n := Min(cfg.bio(st.writes), |left|);
      Appended(st.log, Flight(left[..n]));
      FlightOutData(cfg, st.(wire := st.wire + left[..n], log := st.log + [Flight(left[..n])],
                             flight := Some(left[n..]), writes := st.writes + 1));
    }
  }

  /**
   As long as early data may be written, no more of it has been sealed than the limit allows, however short the
   writes and whatever is presented on retries.
   */
  lemma {:induction false} EarlyDataBounded(cfg: Config, stream: seq<byte>, run: seq<Run>, steps: seq<Step>, n: nat)
    requires IsAnyRun(cfg, stream, run, steps) && n <= |steps| && run[0].st.earlyLeft.Some?
    ensures Early(run[0].st.earlyLeft.value, run[n].st)
    ensures run[n].st.earlyLeft.Some? ==> |AppData(run[n].st.log)| <= run[0].st.earlyLeft.value
  {
    hide Next, Enabled;
    if n > 0 {
      EarlyDataBounded(cfg, stream, run, steps, n - 1);
      StepKeeps(cfg, stream, run[0].st.earlyLeft.value, run[n - 1], steps[n - 1]);
    }
  }

  /** The handshake octets that went out and those still waiting are those handed over, in order, none lost. */
  lemma {:induction false} HandshakeConserved(cfg: Config, stream: seq<byte>, run: seq<Run>, steps: seq<Step>, n: nat)
    requires IsAnyRun(cfg, stream, run, steps) && n <= |steps|
    ensures HandshakeSoFar(run[n].st) == FlightBytes(run[0].st) + Queued(steps, n)
  {
    hide Next, Enabled;
    if n == 0 {
      assert FlightBytes(run[0].st) + [] == [] + FlightBytes(run[0].st);
    } else {
      HandshakeConserved(cfg, stream, run, steps, n - 1);
      StepKeeps(cfg, stream, 0, run[n - 1], steps[n - 1]);
      var more := if steps[n - 1].QueueFlight? then steps[n - 1].bytes else [];
      assert FlightBytes(run[0].st) + Queued(steps, n - 1) + more
             == FlightBytes(run[0].st) + (Queued(steps, n - 1) + more);
    }
  }

  /** After a closing alert nothing more is sealed, sent or reported. */
  lemma {:induction false} ClosedIsSilent(cfg: Config, stream: seq<byte>, run: seq<Run>, steps: seq<Step>,
                                          m: nat, n: nat)
    requires IsAnyRun(cfg, stream, run, steps) && m <= n <= |steps| && run[m].st.shutdown
    ensures run[n].st.shutdown && run[n].st.log == run[m].st.log && run[n].st.wire == run[m].st.wire
    ensures run[n].acked == run[m].acked
  {
    if m < n {
      hide WriteLoop, DoWrite, FlightOut, Flush;
      ClosedIsSilent(cfg, stream, run, steps, m, n - 1);
      assert run[n] == Next(cfg, stream, run[n - 1], steps[n - 1]);
    }
  }

  // ---- What a call reports ----------------------------------------------------------------------

  /** Unless partial writes are asked for, success means everything has been written. */
  lemma {:induction false} LoopAllOrNothing(cfg: Config, st: State, addr: nat, data: seq<byte>, tot: nat)
    requires PendingOk(st) && tot <= |data| && !cfg.partialWrite
    ensures WriteLoop(cfg, st, addr, data, tot).1 > 0 ==> WriteLoop(cfg, st, addr, data, tot).1 == |data|
    decreases |data| - tot
  {
    hide DoWrite, WriteLoop;
    LoopStep(cfg, st, addr, data, tot);
    var max := RecordLimit(cfg, st);
    if max.Some? {
      var nw := Min(|data| - tot, max.value);
      var (st', ret) := DoWrite(cfg, st, RT_APPLICATION_DATA, addr + tot, data[tot..tot + nw]);
      if ret > 0 && ret != |data| - tot {
        LoopAllOrNothing(cfg, Spend(st', ret), addr, data, tot + ret);
      }
    }
  }

  lemma AllOrNothing(cfg: Config, st: State, addr: nat, data: seq<byte>)
    requires PendingOk(st) && !cfg.partialWrite
    ensures WriteAppData(cfg, st, addr, data).1 > 0 ==> WriteAppData(cfg, st, addr, data).1 == |data|
  {
    hide WriteLoop;
    if !st.shutdown && |data| >= st.wnum { LoopAllOrNothing(cfg, st.(wnum := 0), addr, data, st.wnum); }
  }

  /** A retry of a stuck record with less data, or from another place where that is not allowed, changes nothing. */
  lemma BadRetryRefused(cfg: Config, st: State, addr: nat, data: seq<byte>)
    requires PendingOk(st) && st.pending.Some? && !st.shutdown && |data| >= st.wnum
    requires var p := st.pending.value;
             || p.typ != RT_APPLICATION_DATA || |data| - st.wnum < p.tot
             || (!cfg.movingBuffer && addr + st.wnum != p.addr)
    ensures WriteAppData(cfg, st, addr, data) == (st, -1)
  {
    hide Flush;
    LoopStep(cfg, st.(wnum := 0), addr, data, st.wnum);
    hide WriteLoop;
  }

  // ---- A working transport ----------------------------------------------------------------------

  /** Every BIO_write takes something, and sealing does not fail. */
  ghost predicate Working(cfg: Config) {
    (forall k :: cfg.bio(k) > 0) && forall k, typ, p :: cfg.seal(k, typ, p).Some?
  }

  lemma {:induction false} FlushWorks(cfg: Config, st: State)
    requires Working(cfg)
    ensures Flush(cfg, st).1 == 1 && Flush(cfg, st).0.buffer == []
    decreases |st.buffer|
  {
    hide Flush;
    FlushStep(cfg, st);
    if st.buffer != [] {
      var n := Min(cfg.bio(st.writes), |st.buffer|);
      FlushWorks(cfg, st.(wire := st.wire + st.buffer[..n], buffer := st.buffer[n..], writes := st.writes + 1));
    }
  }

  /** Nothing is in the way of a write: a stuck record is the one it retries, and otherwise the buffer is free. */
  predicate Ready(cfg: Config, st: State, addr: nat, left: nat) {
    if st.pending.None? then st.buffer == []
    else
      var p := st.pending.value;
      p.typ == RT_APPLICATION_DATA && (cfg.movingBuffer || p.addr == addr) && p.tot <= left && p.tot <= cfg.maxFragment
  }

  lemma RoundWorks(cfg: Config, st: State, addr: nat, data: seq<byte>)
    requires Working(cfg) && PendingOk(st) && ConfigOk(cfg) && data != [] && |data| <= cfg.maxFragment
    requires Ready(cfg, st, addr, |data|) && |data| + cfg.overhead + |FlightBytes(st)| <= MAX_CAP
    ensures var (st', ret) := DoWrite(cfg, st, RT_APPLICATION_DATA, addr, data);
            && ret == (if st.pending.Some? then st.pending.value.ret else |data|) > 0
            && st'.pending.None? && st'.buffer == [] && st'.earlyLeft == st.earlyLeft
            && |FlightBytes(st')| <= |FlightBytes(st)|
  {
    hide Flush;
    if st.pending.Some? {
      FlushWorks(cfg, st);
    } else {
      var st1 := TakeFlight(st);
      var bytes := cfg.seal(st1.sealed, RT_APPLICATION_DATA, data).value;
      FlushWorks(cfg, Sealed(st1, RT_APPLICATION_DATA, addr, data, bytes));
    }
  }

  lemma {:induction false} LoopWorks(cfg: Config, st: State, addr: nat, data: seq<byte>, tot: nat)
    requires Working(cfg) && PendingOk(st) && ConfigOk(cfg) && tot < |data| && st.earlyLeft.None?
    requires Ready(cfg, st, addr + tot, |data| - tot) && cfg.maxFragment + cfg.overhead + |FlightBytes(st)| <= MAX_CAP
    ensures var (st', ret) := WriteLoop(cfg, st, addr, data, tot);
            ret > tot && (ret == |data| || cfg.partialWrite) && st'.buffer == [] && st'.pending.None?
    decreases |data| - tot
  {
    hide DoWrite, WriteLoop;
    LoopStep(cfg, st, addr, data, tot);
    var nw := Min(|data| - tot, cfg.maxFragment);
    RoundWorks(cfg, st, addr + tot, data[tot..tot + nw]);
    var (st', ret) := DoWrite(cfg, st, RT_APPLICATION_DATA, addr + tot, data[tot..tot + nw]);
    if ret != |data| - tot && !cfg.partialWrite {
      LoopWorks(cfg, Spend(st', ret), addr, data, tot + ret);
    }
  }

  /**
   Over a transport that takes something of whatever it is given, a write or the retry of one, with room for
   the handshake data waiting, is done in one call: all of it reported and on its way, or with partial writes
   at least some.
   */
  lemma WriteWorks(cfg: Config, st: State, addr: nat, data: seq<byte>)
    requires Working(cfg) && PendingOk(st) && ConfigOk(cfg) && !st.shutdown && st.wnum < |data| && st.earlyLeft.None?
    requires Ready(cfg, st, addr + st.wnum, |data| - st.wnum)
    requires cfg.maxFragment + cfg.overhead + |FlightBytes(st)| <= MAX_CAP
    ensures var (st', ret) := WriteAppData(cfg, st, addr, data);
            && ret > st.wnum && (ret == |data| || cfg.partialWrite)
            && st'.buffer == [] && st'.pending.None?
  {
    hide WriteLoop;
    LoopWorks(cfg, st.(wnum := 0), addr, data, st.wnum);
  }
}
