/**
 Writing application data over TLS without blocking: ssl3_write_app_data, do_ssl3_write,
 ssl3_write_pending and tls_write_buffer_flush, resumed across calls.

 The functions are the specification; class Writer is the code.
 */
module TlsWrite {
  import opened Wrappers
  import opened Bytes
  import opened TlsBuffer

  const RT_ALERT: byte := 21
  const RT_APPLICATION_DATA: byte := 23
  const MAX_PLAIN_LENGTH: nat := 16384
  const RT_HEADER_LENGTH: nat := 5

  /**
   What does not change: the fragment limit and mode flags, the seal overhead, what tls_seal_record
   makes of the k-th record sealed, and what the k-th BIO_write returns.
   */
  datatype Config = Config(maxFragment: nat, partialWrite: bool, movingBuffer: bool, overhead: nat,
                           seal: (nat, byte, seq<byte>) -> Option<seq<byte>>, bio: nat -> int)

  /** A fragment limit is at least one octet and a record grows by no more than the overhead. */
  ghost predicate ConfigOk(cfg: Config) {
    && 1 <= cfg.maxFragment <= MAX_PLAIN_LENGTH
    && forall k, typ, p :: cfg.seal(k, typ, p).Some? ==> |cfg.seal(k, typ, p).value| <= |p| + cfg.overhead
  }

  /** wpend_tot, wpend_buf, wpend_type and wpend_ret of a record sealed but perhaps not yet flushed. */
  datatype Pending = Pending(tot: nat, addr: nat, typ: byte, ret: nat)

  /** What has gone into the write buffer: unflushed handshake data, or one sealed record. */
  datatype Emitted = Flight(bytes: seq<byte>) | Record(typ: byte, plain: seq<byte>, bytes: seq<byte>)

  /** wire is what the transport has accepted; log everything ever put into the buffer. */
  datatype State = State(wnum: nat, pending: Option<Pending>, buffer: seq<byte>, flight: Option<seq<byte>>,
                         earlyLeft: Option<nat>, shutdown: bool, wire: seq<byte>, log: seq<Emitted>,
                         sealed: nat, writes: nat)

  // ---- What the calls do ------------------------------------------------------------------------

  /** tls_write_buffer_flush; the result is the code's return value. */
  function Flush(cfg: Config, st: State): (r: (State, int))
    ensures r.0 == st.(wire := r.0.wire, buffer := r.0.buffer, writes := r.0.writes)
    ensures r.1 > 0 ==> r.0.buffer == []
    decreases |st.buffer|
  {
    if st.buffer == [] then (st, 1)
    else
      var ret := cfg.bio(st.writes);
      if ret <= 0 then (st.(writes := st.writes + 1), ret)
      else
        var n := if ret > |st.buffer| then |st.buffer| else ret;
        Flush(cfg, st.(wire := st.wire + st.buffer[..n], buffer := st.buffer[n..], writes := st.writes + 1))
  }

  /** The two lengths remembered for a retry agree. */
  predicate PendingOk(st: State) {
    st.pending.Some? ==> st.pending.value.ret == st.pending.value.tot >= 1
  }

  /** ssl3_write_pending. */
  function WritePending(cfg: Config, st: State, typ: byte, addr: nat, len: nat): (r: (State, int))
    requires st.pending.Some? && PendingOk(st)
    ensures PendingOk(r.0) && r.0.wnum == st.wnum && (r.1 > 0 ==> r.1 <= len && r.0.pending.None?)
  {
    var p := st.pending.value;
    if p.tot > len || (!cfg.movingBuffer && p.addr != addr) || p.typ != typ then (st, -1)
    else
      var (st', ret) := Flush(cfg, st);
      if ret <= 0 then (st', ret) else (st'.(pending := None), p.ret)
  }

  function FlightBytes(st: State): seq<byte> {
    if st.flight.Some? then st.flight.value else []
  }

  /** Move any unflushed handshake data into the buffer. */
  function TakeFlight(st: State): State {
    if st.flight.None? then st
    else st.(buffer := st.buffer + st.flight.value, flight := None, log := st.log + [Flight(st.flight.value)])
  }

  /** A record freshly sealed into the buffer, its arguments remembered for a retry. */
  function Sealed(st: State, typ: byte, addr: nat, chunk: seq<byte>, bytes: seq<byte>): State {
    st.(buffer := st.buffer + bytes, log := st.log + [Record(typ, chunk, bytes)], sealed := st.sealed + 1,
        pending := Some(Pending(|chunk|, addr, typ, |chunk|)))
  }

  /** do_ssl3_write. */
  function DoWrite(cfg: Config, st: State, typ: byte, addr: nat, data: seq<byte>): (r: (State, int))
    requires PendingOk(st)
    ensures PendingOk(r.0) && r.0.wnum == st.wnum && (r.1 > 0 ==> r.1 <= |data| && r.0.pending.None?)
  {
    if st.pending.Some? then WritePending(cfg, st, typ, addr, |data|)
    else if |data| > MAX_PLAIN_LENGTH || st.buffer != [] then (st, -1)
    else if data == [] then (st, 0)
    else if |data| + cfg.overhead + |FlightBytes(st)| > MAX_CAP then (st, -1)
    else
      var st1 := TakeFlight(st);
      match cfg.seal(st1.sealed, typ, data)
      case None => (st1, -1)
      case Some(bytes) =>
        WritePending(cfg, Sealed(st1, typ, addr, data, bytes), typ, addr, |data|)
  }

  /** The most one record may carry now; None when early data has run out. */
  function RecordLimit(cfg: Config, st: State): Option<nat> {
    if st.earlyLeft.Some? && cfg.maxFragment > st.earlyLeft.value
    then if st.earlyLeft.value == 0 then None else Some(st.earlyLeft.value)
    else Some(cfg.maxFragment)
  }

  function Spend(st: State, n: nat): State {
    if st.earlyLeft.None? then st
    else st.(earlyLeft := Some(if n <= st.earlyLeft.value then st.earlyLeft.value - n else 0))
  }

  function Min(a: nat, b: nat): nat {
    if a < b then a else b
  }

  /** The loop of ssl3_write_app_data, with tot octets of data dealt with. */
  function WriteLoop(cfg: Config, st: State, addr: nat, data: seq<byte>, tot: nat): (r: (State, int))
    requires tot <= |data| && PendingOk(st)
    ensures PendingOk(r.0) && r.1 <= |data|
    decreases |data| - tot
  {
    var max := RecordLimit(cfg, st);
    if max.None? then (st.(wnum := tot), -1)
    else
      var nw := Min(|data| - tot, max.value);
      var (st', ret) := DoWrite(cfg, st, RT_APPLICATION_DATA, addr + tot, data[tot..tot + nw]);
      if ret <= 0 then (st'.(wnum := tot), ret)
      else if ret == |data| - tot || cfg.partialWrite then (Spend(st', ret), tot + ret)
      else WriteLoop(cfg, Spend(st', ret), addr, data, tot + ret)
  }

  /** ssl3_write_app_data. */
  function WriteAppData(cfg: Config, st: State, addr: nat, data: seq<byte>): (r: (State, int))
    requires PendingOk(st)
    ensures PendingOk(r.0) && r.1 <= |data|
  {
    if st.shutdown then (st, -1)
    else if |data| < st.wnum then (st.(wnum := 0), -1)
    else WriteLoop(cfg, st.(wnum := 0), addr, data, st.wnum)
  }

  /** The loop of ssl3_flush_flight, from pending_flight_offset on. */
  function FlightOut(cfg: Config, st: State): (r: (State, int))
    requires st.flight.Some?
    ensures r.0.flight.Some?
    ensures r.0 == st.(wire := r.0.wire, log := r.0.log, flight := r.0.flight, writes := r.0.writes)
    decreases |FlightBytes(st)|
  {
    var left := st.flight.value;
    if left == [] then (st, 1)
    else
      var ret := cfg.bio(st.writes);
      if ret <= 0 then (st.(writes := st.writes + 1), ret)
      else
        var n := if ret > |left| then |left| else ret;
        FlightOut(cfg, st.(wire := st.wire + left[..n], log := st.log + [Flight(left[..n])], flight := Some(left[n..]),
                           writes := st.writes + 1))
  }

  /** ssl3_flush_flight: what is in the write buffer goes first, and a failed write resumes where it stopped. */
  function FlushFlight(cfg: Config, st: State, flushOk: bool): (State, int) {
    if st.flight.None? then (st, 1)
    else if st.shutdown then (st, -1)
    else
      var (st1, ret) := Flush(cfg, st);
      if ret <= 0 then (st1, ret)
      else
        var (st2, ret2) := FlightOut(cfg, st1);
        if ret2 <= 0 then (st2, ret2) else if !flushOk then (st2, -1) else (st2.(flight := None), 1)
  }

  /** ssl_send_alert: nothing more is written after it; it goes out now if nothing is in its way. */
  function SendAlert(cfg: Config, st: State, alert: seq<byte>): (r: State)
    requires PendingOk(st)
    ensures PendingOk(r)
  {
    if st.shutdown then st
    else if st.buffer != [] then st.(shutdown := true)
    else DoWrite(cfg, st.(shutdown := true), RT_ALERT, 0, alert).0
  }

  // ---- What has been sealed, and in what order it leaves -----------------------------------------

  /** The application plaintext of the records in a log. */
  function AppData(log: seq<Emitted>): seq<byte> {
    if log == [] then []
    else AppData(log[..|log| - 1])
         + var e := log[|log| - 1]; if e.Record? && e.typ == RT_APPLICATION_DATA then e.plain else []
  }

  function BytesOf(log: seq<Emitted>): seq<byte> {
    if log == [] then [] else BytesOf(log[..|log| - 1]) + log[|log| - 1].bytes
  }

  lemma Appended(log: seq<Emitted>, e: Emitted)
    ensures AppData(log + [e]) == AppData(log) + if e.Record? && e.typ == RT_APPLICATION_DATA then e.plain else []
    ensures BytesOf(log + [e]) == BytesOf(log) + e.bytes
  {
    assert (log + [e])[..|log|] == log;
  }

  /** What the transport has taken, and then the buffer, are what was emitted, in that order. */
  predicate InOrder(st: State) {
    st.wire + st.buffer == BytesOf(st.log)
  }

  lemma {:induction false} FlushInOrder(cfg: Config, st: State)
    requires InOrder(st)
    ensures InOrder(Flush(cfg, st).0)
    decreases |st.buffer|
  {
    if st.buffer != [] && cfg.bio(st.writes) > 0 {
      var ret := cfg.bio(st.writes);
      var n := if ret > |st.buffer| then |st.buffer| else ret;
      assert st.wire + st.buffer[..n] + st.buffer[n..] == st.wire + st.buffer;
      FlushInOrder(cfg, st.(wire := st.wire + st.buffer[..n], buffer := st.buffer[n..], writes := st.writes + 1));
    }
  }

  /** The octets of a pending application record: sealed, but not yet reported as written. */
  function PendingLen(st: State): nat {
    if st.pending.Some? && st.pending.value.typ == RT_APPLICATION_DATA then st.pending.value.ret else 0
  }

  /** Octets sealed but not yet reported: those of finished records of this call, and the pending one's. */
  function Unreported(st: State): nat {
    st.wnum + PendingLen(st)
  }

  /**
   Everything sealed is what has been reported followed by the first octets of the rest of the
   caller's stream: tot of them in records already flushed, and those of the pending record if any.
   */
  predicate Mid(st: State, reported: seq<byte>, rest: seq<byte>, tot: nat) {
    && PendingOk(st) && InOrder(st) && tot <= |rest|
    && AppData(st.log) == reported + rest[..tot] + PendingPlain(st)
    && |PendingPlain(st)| == PendingLen(st)
    && PendingPlain(st) <= rest[tot..]
  }

  /** The plaintext of the pending application record. */
  function PendingPlain(st: State): seq<byte> {
    if PendingLen(st) <= |AppData(st.log)| then AppData(st.log)[|AppData(st.log)| - PendingLen(st)..] else []
  }

  lemma TakeFlightInOrder(st: State)
    requires InOrder(st)
    ensures InOrder(TakeFlight(st)) && AppData(TakeFlight(st).log) == AppData(st.log)
  {
    if st.flight.Some? {
      Appended(st.log, Flight(st.flight.value));
      assert st.wire + (st.buffer + st.flight.value) == st.wire + st.buffer + st.flight.value;
    }
  }

  /** Without a pending record, what has been sealed ends with what was flushed in this call. */
  lemma NoPending(st: State, reported: seq<byte>, rest: seq<byte>, tot: nat)
    requires st.pending.None? && InOrder(st) && tot <= |rest|
    ensures Mid(st, reported, rest, tot) <==> AppData(st.log) == reported + rest[..tot]
  {
    assert PendingPlain(st) == [];
    assert reported + rest[..tot] + [] == reported + rest[..tot];
  }

  lemma SealedMid(st: State, addr: nat, reported: seq<byte>, rest: seq<byte>, tot: nat, nw: nat, bytes: seq<byte>)
    requires st.pending.None? && Mid(st, reported, rest, tot) && nw >= 1 && tot + nw <= |rest|
    ensures Mid(Sealed(st, RT_APPLICATION_DATA, addr, rest[tot..tot + nw], bytes), reported, rest, tot)
  {
    NoPending(st, reported, rest, tot);
    var chunk := rest[tot..tot + nw];
    var st' := Sealed(st, RT_APPLICATION_DATA, addr, chunk, bytes);
    Appended(st.log, Record(RT_APPLICATION_DATA, chunk, bytes));
    assert st.wire + (st.buffer + bytes) == st.wire + st.buffer + bytes;
    assert AppData(st'.log) == reported + rest[..tot] + chunk;
    assert PendingPlain(st') == chunk;
    assert chunk == rest[tot..][..nw];
  }

  /** One record's worth: the pending record is finished, or a new one is sealed from rest[tot..tot + nw]. */
  lemma DoWriteKeeps(cfg: Config, st: State, addr: nat, reported: seq<byte>, rest: seq<byte>, tot: nat, nw: nat)
    requires Mid(st, reported, rest, tot) && tot + nw <= |rest|
    ensures var (st', ret) := DoWrite(cfg, st, RT_APPLICATION_DATA, addr, rest[tot..tot + nw]);
            if ret > 0 then tot + ret <= |rest| && Mid(st', reported, rest, tot + ret) && st'.pending.None?
            else Mid(st', reported, rest, tot)
  {
    hide Flush;
    hide Mid;
    hide AppData;
    if st.pending.Some? {
      PendingKeeps(cfg, st, addr, reported, rest, tot, nw);
    } else if nw > 0 {
      FlightMid(st, reported, rest, tot);
      var st1 := TakeFlight(st);
      var chunk := rest[tot..tot + nw];
      var sealed := cfg.seal(st1.sealed, RT_APPLICATION_DATA, chunk);
      if sealed.Some? {
        SealedMid(st1, addr, reported, rest, tot, nw, sealed.value);
        PendingKeeps(cfg, Sealed(st1, RT_APPLICATION_DATA, addr, chunk, sealed.value), addr, reported, rest, tot, nw);
      }
    }
  }

  lemma FlightMid(st: State, reported: seq<byte>, rest: seq<byte>, tot: nat)
    requires st.pending.None? && Mid(st, reported, rest, tot)
    ensures Mid(TakeFlight(st), reported, rest, tot)
  {
    TakeFlightInOrder(st);
    NoPending(st, reported, rest, tot);
    NoPending(TakeFlight(st), reported, rest, tot);
  }

  lemma PendingKeeps(cfg: Config, st: State, addr: nat, reported: seq<byte>, rest: seq<byte>, tot: nat, nw: nat)
    requires Mid(st, reported, rest, tot) && tot + nw <= |rest| && st.pending.Some?
    ensures var (st', ret) := WritePending(cfg, st, RT_APPLICATION_DATA, addr, nw);
            if ret > 0 then tot + ret <= |rest| && Mid(st', reported, rest, tot + ret) && st'.pending.None?
            else Mid(st', reported, rest, tot)
  {
    hide Mid;
    hide Flush;
    FlushMid(cfg, st, reported, rest, tot);
    MidPending(st, reported, rest, tot);
    var (st', ret) := WritePending(cfg, st, RT_APPLICATION_DATA, addr, nw);
    if ret > 0 {
      FinishMid(Flush(cfg, st).0, reported, rest, tot);
    }
  }

  lemma FlushMid(cfg: Config, st: State, reported: seq<byte>, rest: seq<byte>, tot: nat)
    requires Mid(st, reported, rest, tot)
    ensures Mid(Flush(cfg, st).0, reported, rest, tot)
  {
    FlushInOrder(cfg, st);
    hide Flush;
    hide InOrder;
    hide AppData;
  }

  /** Once flushed, the pending record's octets count as dealt with. */
  lemma FinishMid(st: State, reported: seq<byte>, rest: seq<byte>, tot: nat)
    requires st.pending.Some? && st.pending.value.typ == RT_APPLICATION_DATA && Mid(st, reported, rest, tot)
    ensures var n := st.pending.value.ret;
            tot + n <= |rest| && Mid(st.(pending := None), reported, rest, tot + n)
  {
    hide AppData;
    hide PendingPlain;
    var p := PendingPlain(st);
    assert p == rest[tot..][..|p|];
    assert rest[..tot + |p|] == rest[..tot] + p;
    assert reported + rest[..tot] + p == reported + rest[..tot + |p|];
    NoPending(st.(pending := None), reported, rest, tot + |p|);
  }

  lemma MidPending(st: State, reported: seq<byte>, rest: seq<byte>, tot: nat)
    requires Mid(st, reported, rest, tot)
    ensures PendingOk(st)
  {
  }

  // ---- Whole calls ------------------------------------------------------------------------------

  /** One round of the loop. */
  lemma LoopStep(cfg: Config, st: State, addr: nat, data: seq<byte>, tot: nat)
    requires PendingOk(st) && tot <= |data|
    ensures RecordLimit(cfg, st).None? ==> WriteLoop(cfg, st, addr, data, tot) == (st.(wnum := tot), -1)
    ensures RecordLimit(cfg, st).Some? ==>
              var nw := Min(|data| - tot, RecordLimit(cfg, st).value);
              var (st', ret) := DoWrite(cfg, st, RT_APPLICATION_DATA, addr + tot, data[tot..tot + nw]);
              && (ret <= 0 ==> WriteLoop(cfg, st, addr, data, tot) == (st'.(wnum := tot), ret))
              && (ret > 0 && (ret == |data| - tot || cfg.partialWrite) ==>
                    WriteLoop(cfg, st, addr, data, tot) == (Spend(st', ret), tot + ret))
              && (ret > 0 && ret != |data| - tot && !cfg.partialWrite ==>
                    tot + ret <= |data|
                    && WriteLoop(cfg, st, addr, data, tot) == WriteLoop(cfg, Spend(st', ret), addr, data, tot + ret))
  {
    hide DoWrite;
  }

  lemma {:induction false} WriteLoopKeeps(cfg: Config, st: State, addr: nat, reported: seq<byte>, rest: seq<byte>,
                                          len: nat, tot: nat)
    requires Mid(st, reported, rest, tot) && tot <= len <= |rest| && st.wnum == 0
    ensures var (st', ret) := WriteLoop(cfg, st, addr, rest[..len], tot);
            if ret > 0 then ret <= len && st'.wnum == 0 && st'.pending.None? && Mid(st', reported, rest, ret)
            else st'.wnum <= len && Mid(st', reported, rest, st'.wnum)
    decreases len - tot
  {
    hide DoWrite;
    hide Mid;
    hide WriteLoop;
    hide PendingOk;
    hide AppData;
    MidPending(st, reported, rest, tot);
    LoopStep(cfg, st, addr, rest[..len], tot);
    if RecordLimit(cfg, st).None? {
      MidIgnores(st, st.(wnum := tot), reported, rest, tot);
    } else {
      var nw := Min(len - tot, RecordLimit(cfg, st).value);
      assert rest[..len][tot..tot + nw] == rest[tot..tot + nw];
      DoWriteKeeps(cfg, st, addr + tot, reported, rest, tot, nw);
      var (st', ret) := DoWrite(cfg, st, RT_APPLICATION_DATA, addr + tot, rest[tot..tot + nw]);
      if ret <= 0 {
        MidIgnores(st', st'.(wnum := tot), reported, rest, tot);
      } else {
        MidIgnores(st', Spend(st', ret), reported, rest, tot + ret);
        if ret != len - tot && !cfg.partialWrite {
          WriteLoopKeeps(cfg, Spend(st', ret), addr, reported, rest, len, tot + ret);
        }
      }
    }
  }

  /** Bookkeeping outside the buffer and the log does not matter. */
  lemma MidIgnores(st: State, st': State, reported: seq<byte>, rest: seq<byte>, tot: nat)
    requires Mid(st, reported, rest, tot)
    requires st' == st.(wnum := st'.wnum, earlyLeft := st'.earlyLeft, shutdown := st'.shutdown, flight := st'.flight)
    ensures Mid(st', reported, rest, tot)
  {
  }

  /** A caller's stream, a writer, and how much of the stream has been reported as written. */
  datatype Run = Run(st: State, acked: nat)

  datatype Step =
    | Write(len: nat, addr: nat)
    | Alert(alert: seq<byte>)
    | QueueFlight(bytes: seq<byte>)
    | SendFlight(flushOk: bool)
    | EarlyDataOver

  /** The invariant: exactly the reported and the unreported octets of the stream have been sealed. */
  predicate Intact(stream: seq<byte>, run: Run) {
    && PendingOk(run.st) && InOrder(run.st)
    && run.acked + Unreported(run.st) <= |stream|
    && AppData(run.st.log) == stream[..run.acked + Unreported(run.st)]
  }

  /** The caller presents len octets of what it has not been told is written. */
  predicate Enabled(stream: seq<byte>, run: Run, step: Step) {
    && PendingOk(run.st)
    && (step.Write? ==> run.acked + step.len <= |stream|)
  }

  function Next(cfg: Config, stream: seq<byte>, run: Run, step: Step): Run
    requires Enabled(stream, run, step)
  {
    match step
    case Write(len, addr) =>
      var (st', ret) := WriteAppData(cfg, run.st, addr, stream[run.acked..run.acked + len]);
      Run(st', if ret > 0 then run.acked + ret else run.acked)
    case Alert(alert) => run.(st := SendAlert(cfg, run.st, alert))
    case QueueFlight(bytes) => run.(st := run.st.(flight := Some(FlightBytes(run.st) + bytes)))
    case SendFlight(flushOk) => run.(st := FlushFlight(cfg, run.st, flushOk).0)
    case EarlyDataOver => run.(st := run.st.(earlyLeft := None))
  }

  lemma IntactMid(stream: seq<byte>, run: Run)
    requires Intact(stream, run)
    ensures Mid(run.st, stream[..run.acked], stream[run.acked..], run.st.wnum)
  {
    var st, a := run.st, run.acked;
    var u := a + Unreported(st);
    assert PendingPlain(st) == stream[a + st.wnum..u];
    assert stream[a..][..st.wnum] == stream[a..a + st.wnum];
    assert stream[a..][st.wnum..] == stream[a + st.wnum..];
    assert stream[..u] == stream[..a] + stream[a..a + st.wnum] + stream[a + st.wnum..u];
  }

  lemma MidIntact(stream: seq<byte>, st: State, acked: nat, tot: nat)
    requires acked <= |stream| && Mid(st, stream[..acked], stream[acked..], tot)
    ensures tot == st.wnum ==> Intact(stream, Run(st, acked))
    ensures st.wnum == 0 && st.pending.None? ==> Intact(stream, Run(st, acked + tot))
  {
    var p := PendingPlain(st);
    assert stream[acked..][..tot] == stream[acked..acked + tot];
    assert stream[acked..][tot..] == stream[acked + tot..];
    assert p == stream[acked + tot..acked + tot + |p|];
    assert stream[..acked + tot + |p|] == stream[..acked] + stream[acked..acked + tot] + p;
    if st.pending.None? { assert p == []; }
  }

  /**
   A write keeps the stream intact exactly when the caller presents at least the octets of the
   records its last call had finished (or the connection is already shut down): a shorter retry is
   refused with "bad length", but it has forgotten them.
   */
  lemma WriteKeepsIntact(cfg: Config, stream: seq<byte>, run: Run, len: nat, addr: nat)
    requires Intact(stream, run) && run.acked + len <= |stream|
    ensures Intact(stream, Next(cfg, stream, run, Write(len, addr))) <==> run.st.shutdown || len >= run.st.wnum
  {
    hide WriteLoop;
    hide AppData;
    hide Mid;
    var st := run.st;
    if !st.shutdown && len >= st.wnum {
      IntactMid(stream, run);
      var reported, rest := stream[..run.acked], stream[run.acked..];
      assert rest[..len] == stream[run.acked..run.acked + len];
      MidIgnores(st, st.(wnum := 0), reported, rest, st.wnum);
      WriteLoopKeeps(cfg, st.(wnum := 0), addr, reported, rest, len, st.wnum);
      var (st', ret) := WriteAppData(cfg, st, addr, rest[..len]);
      MidIntact(stream, st', run.acked, if ret > 0 then ret else st'.wnum);
    } else if !st.shutdown {
      assert |AppData(st.log)| == run.acked + Unreported(st);
    }
  }

  /**
   The smallest case the fragment limit allows: after a 512-octet record has gone out and the flush
   of the second failed, an empty retry is refused, and the next full retry seals the second half again.
   */
  lemma ShortRetryRepeats(cfg: Config, stream: seq<byte>, st: State)
    requires ConfigOk(cfg) && cfg.maxFragment == 512 && |stream| == 1024 && cfg.overhead <= 100
    requires !cfg.partialWrite && cfg.movingBuffer
    requires forall k, p :: Sealable(cfg, k, p)
    requires forall k :: if k == 1 then cfg.bio(k) <= 0 else cfg.bio(k) >= MAX_CAP
    requires st == State(0, None, [], None, None, false, [], [], 0, 0)
    ensures var st1 := WriteAppData(cfg, st, 0, stream).0;
            var st2 := WriteAppData(cfg, st1, 0, []).0;
            AppData(WriteAppData(cfg, st2, 0, stream).0.log) == stream + stream[512..]
  {
    hide Flush;
    hide DoWrite;
    var a, b := stream[0..512], stream[512..1024];
    assert Sealable(cfg, 0, a) && Sealable(cfg, 1, b) && Sealable(cfg, 2, b);
    var wireA, wireB := cfg.seal(0, RT_APPLICATION_DATA, a).value, cfg.seal(1, RT_APPLICATION_DATA, b).value;
    var wireC := cfg.seal(2, RT_APPLICATION_DATA, b).value;
    var s1 := Accepted(cfg, st, a);
    SealOne(cfg, st, 0, a);
    var s2 := Stuck(cfg, s1, 512, b);
    SealOne(cfg, s1, 512, b);
    TwoRounds(cfg, stream, st, s1, s2, cfg.bio(1));
    assert WriteAppData(cfg, s2.(wnum := 512), 0, []).0 == s2;
    var s3 := s2.(wire := s2.wire + wireB, buffer := [], writes := 3, pending := None);
    Unstick(cfg, s2, a);
    var s4 := Accepted(cfg, s3, b);
    SealOne(cfg, s3, 512, b);
    TwoRounds(cfg, stream, s2, s3, s4, 512);
    Appended([], Record(RT_APPLICATION_DATA, a, wireA));
    Appended(s1.log, Record(RT_APPLICATION_DATA, b, wireB));
    Appended(s2.log, Record(RT_APPLICATION_DATA, b, wireC));
    assert stream == [] + a + b && stream[512..] == b;
  }

  /** The k-th record sealed holds a header besides the plaintext. */
  predicate Sealable(cfg: Config, k: nat, p: seq<byte>) {
    var r := cfg.seal(k, RT_APPLICATION_DATA, p);
    r.Some? && |r.value| >= |p| + RT_HEADER_LENGTH
  }

  /** What sealing one application record leaves when the transport takes it, and when it does not. */
  function Accepted(cfg: Config, st: State, chunk: seq<byte>): State
    requires Sealable(cfg, st.sealed, chunk)
  {
    var bytes := cfg.seal(st.sealed, RT_APPLICATION_DATA, chunk).value;
    st.(log := st.log + [Record(RT_APPLICATION_DATA, chunk, bytes)], sealed := st.sealed + 1,
        writes := st.writes + 1, wire := st.wire + bytes)
  }

  function Stuck(cfg: Config, st: State, addr: nat, chunk: seq<byte>): State
    requires Sealable(cfg, st.sealed, chunk)
  {
    Accepted(cfg, st, chunk).(wire := st.wire, buffer := cfg.seal(st.sealed, RT_APPLICATION_DATA, chunk).value,
                              pending := Some(Pending(|chunk|, addr, RT_APPLICATION_DATA, |chunk|)))
  }

  /** A write of 1024 octets in two records of 512. */
  lemma TwoRounds(cfg: Config, stream: seq<byte>, st: State, st1: State, st2: State, ret: int)
    requires |stream| == 1024 && cfg.maxFragment == 512 && !cfg.partialWrite && PendingOk(st) && PendingOk(st1) && ret <= 512
    requires !st.shutdown && st.wnum == 0 && st.earlyLeft.None? && st1.earlyLeft.None? && st2.earlyLeft.None?
    requires DoWrite(cfg, st, RT_APPLICATION_DATA, 0, stream[0..512]) == (st1, 512)
    requires DoWrite(cfg, st1, RT_APPLICATION_DATA, 512, stream[512..1024]) == (st2, ret)
    requires ret <= 0 || ret == 512
    ensures WriteAppData(cfg, st, 0, stream) == if ret <= 0 then (st2.(wnum := 512), ret) else (st2, 1024)
  {
    hide DoWrite;
    hide WriteLoop;
    LoopStep(cfg, st, 0, stream, 0);
    LoopStep(cfg, st1, 0, stream, 512);
  }

  /** A write of one record with nothing in its way. */
  lemma SealOne(cfg: Config, st: State, addr: nat, chunk: seq<byte>)
    requires ConfigOk(cfg) && cfg.movingBuffer && cfg.overhead <= 100 && Sealable(cfg, st.sealed, chunk)
    requires 1 <= |chunk| <= 512 && st.buffer == [] && st.pending.None? && st.flight.None?
    requires cfg.bio(st.writes) <= 0 || cfg.bio(st.writes) >= MAX_CAP
    ensures DoWrite(cfg, st, RT_APPLICATION_DATA, addr, chunk) ==
              if cfg.bio(st.writes) <= 0 then (Stuck(cfg, st, addr, chunk), cfg.bio(st.writes))
              else (Accepted(cfg, st, chunk), |chunk|)
  {
    var bytes := cfg.seal(st.sealed, RT_APPLICATION_DATA, chunk).value;
    assert st.buffer + bytes == bytes;
    OneFlush(cfg, Sealed(st, RT_APPLICATION_DATA, addr, chunk, bytes));
    hide Flush;
  }

  /** A retry of the record that did not go out. */
  lemma Unstick(cfg: Config, st: State, data: seq<byte>)
    requires st.pending == Some(Pending(|data|, 512, RT_APPLICATION_DATA, |data|)) && data != [] && cfg.movingBuffer
    requires 0 < |st.buffer| <= cfg.bio(st.writes)
    ensures DoWrite(cfg, st, RT_APPLICATION_DATA, 0, data) ==
              (st.(wire := st.wire + st.buffer, buffer := [], writes := st.writes + 1, pending := None), |data|)
  {
    OneFlush(cfg, st);
    hide Flush;
  }

  /** Flushing a buffer that the transport takes whole or not at all takes one BIO_write. */
  lemma OneFlush(cfg: Config, st: State)
    requires st.buffer != [] && (cfg.bio(st.writes) <= 0 || cfg.bio(st.writes) >= |st.buffer|)
    ensures cfg.bio(st.writes) <= 0 ==> Flush(cfg, st) == (st.(writes := st.writes + 1), cfg.bio(st.writes))
    ensures cfg.bio(st.writes) > 0 ==>
              Flush(cfg, st) == (st.(wire := st.wire + st.buffer, buffer := [], writes := st.writes + 1), 1)
  {
    if cfg.bio(st.writes) > 0 {
      var n := |st.buffer|;
      assert st.buffer[..n] == st.buffer && st.buffer[n..] == [];
      var st' := st.(wire := st.wire + st.buffer, buffer := [], writes := st.writes + 1);
      assert Flush(cfg, st') == (st', 1);
    }
  }

  lemma OthersKeepIntact(cfg: Config, stream: seq<byte>, run: Run, step: Step)
    requires Intact(stream, run) && !step.Write?
    ensures Intact(stream, Next(cfg, stream, run, step))
  {
    if step.SendFlight? {
      FlushFlightKeeps(cfg, run.st, step.flushOk);
    }
    if step.Alert? && !run.st.shutdown && run.st.buffer == [] {
      AlertKeeps(cfg, run.st.(shutdown := true), step.alert);
    }
  }

  lemma {:induction false} FlightOutKeeps(cfg: Config, st: State)
    requires InOrder(st) && st.buffer == [] && st.flight.Some?
    ensures var st' := FlightOut(cfg, st).0; InOrder(st') && AppData(st'.log) == AppData(st.log)
    decreases |FlightBytes(st)|
  {
    var left := st.flight.value;
    if left != [] && cfg.bio(st.writes) > 0 {
      var ret := cfg.bio(st.writes);
      var n := if ret > |left| then |left| else ret;
      Appended(st.log, Flight(left[..n]));
      assert st.wire + left[..n] + [] == st.wire + [] + left[..n];
      hide AppData;
      hide BytesOf;
      FlightOutKeeps(cfg, st.(wire := st.wire + left[..n], log := st.log + [Flight(left[..n])],
                              flight := Some(left[n..]), writes := st.writes + 1));
    }
  }

  /** Sending handshake data keeps the order and touches no application data. */
  lemma FlushFlightKeeps(cfg: Config, st: State, flushOk: bool)
    requires InOrder(st)
    ensures var st' := FlushFlight(cfg, st, flushOk).0;
            && InOrder(st') && AppData(st'.log) == AppData(st.log) && st'.wnum == st.wnum && st'.pending == st.pending
  {
    hide Flush;
    hide FlightOut;
    hide AppData;
    if st.flight.Some? && !st.shutdown {
      FlushInOrder(cfg, st);
      if Flush(cfg, st).1 > 0 { FlightOutKeeps(cfg, Flush(cfg, st).0); }
    }
  }

  lemma AlertKeeps(cfg: Config, st: State, alert: seq<byte>)
    requires PendingOk(st) && InOrder(st) && st.buffer == []
    ensures var st' := DoWrite(cfg, st, RT_ALERT, 0, alert).0;
            && InOrder(st') && AppData(st'.log) == AppData(st.log)
            && st'.wnum == st.wnum && PendingLen(st') == PendingLen(st)
  {
    hide AppData;
    hide InOrder;
    if st.pending.Some? {
      AlertPending(cfg, st, |alert|);
    } else {
      TakeFlightInOrder(st);
      var st1 := TakeFlight(st);
      var sealed := cfg.seal(st1.sealed, RT_ALERT, alert);
      if sealed.Some? && alert != [] {
        SealedInOrder(st1, alert, sealed.value);
        AlertPending(cfg, Sealed(st1, RT_ALERT, 0, alert, sealed.value), |alert|);
      }
    }
  }

  lemma AlertPending(cfg: Config, st: State, len: nat)
    requires PendingOk(st) && InOrder(st) && st.pending.Some?
    ensures var st' := WritePending(cfg, st, RT_ALERT, 0, len).0;
            && InOrder(st') && st'.log == st.log && st'.wnum == st.wnum && PendingLen(st') == PendingLen(st)
  {
    hide Flush;
    FlushInOrder(cfg, st);
  }

  lemma SealedInOrder(st: State, alert: seq<byte>, bytes: seq<byte>)
    requires InOrder(st)
    ensures var st' := Sealed(st, RT_ALERT, 0, alert, bytes);
            InOrder(st') && AppData(st'.log) == AppData(st.log)
  {
    Appended(st.log, Record(RT_ALERT, alert, bytes));
    assert st.wire + (st.buffer + bytes) == st.wire + st.buffer + bytes;
  }

  /** A run on a fresh connection in which every retry is long enough. */
  predicate IsRun(cfg: Config, stream: seq<byte>, run: seq<Run>, steps: seq<Step>) {
    && |run| == |steps| + 1
    && run[0].acked == 0 && run[0].st.wnum == 0 && run[0].st.pending.None? && run[0].st.buffer == []
    && run[0].st.wire == [] && run[0].st.log == []
    && forall i | 0 <= i < |steps| ::
         && Enabled(stream, run[i], steps[i]) && run[i + 1] == Next(cfg, stream, run[i], steps[i])
         && (steps[i].Write? ==> run[i].st.shutdown || steps[i].len >= run[i].st.wnum)
  }

  /**
   Across any mix of short writes, failed flushes and retries in which the caller re-presents its
   unsent octets, the plaintext sealed into application records is exactly the reported octets of
   its stream and then the ones still to be reported, none lost or repeated; and the sealed octets
   reach the transport in order.
   */
  lemma {:induction false} StreamIntact(cfg: Config, stream: seq<byte>, run: seq<Run>, steps: seq<Step>, n: nat)
    requires IsRun(cfg, stream, run, steps) && n <= |steps|
    ensures var st := run[n].st;
            && run[n].acked + Unreported(st) <= |stream|
            && AppData(st.log) == stream[..run[n].acked + Unreported(st)]
            && st.wire + st.buffer == BytesOf(st.log)
    ensures Intact(stream, run[n])
  {
    if n > 0 {
      StreamIntact(cfg, stream, run, steps, n - 1);
      hide Next;
      hide Intact;
      assert run[n] == Next(cfg, stream, run[n - 1], steps[n - 1]);
      if steps[n - 1].Write? {
        RunIntact(stream, run[n - 1]);
        WriteKeepsIntact(cfg, stream, run[n - 1], steps[n - 1].len, steps[n - 1].addr);
      } else {
        OthersKeepIntact(cfg, stream, run[n - 1], steps[n - 1]);
      }
    }
    RunIntact(stream, run[n]);
  }

  lemma RunIntact(stream: seq<byte>, run: Run)
    requires Intact(stream, run)
    ensures PendingOk(run.st) && run.acked + Unreported(run.st) <= |stream|
    ensures AppData(run.st.log) == stream[..run.acked + Unreported(run.st)]
    ensures run.st.wire + run.st.buffer == BytesOf(run.st.log)
  {
  }

  // ---- The code ---------------------------------------------------------------------------------

  /** One BIO_write. */
  lemma FlushStep(cfg: Config, st: State)
    ensures st.buffer == [] ==> Flush(cfg, st) == (st, 1)
    ensures st.buffer != [] && cfg.bio(st.writes) <= 0 ==>
              Flush(cfg, st) == (st.(writes := st.writes + 1), cfg.bio(st.writes))
    ensures st.buffer != [] && cfg.bio(st.writes) > 0 ==>
              var n := Min(cfg.bio(st.writes), |st.buffer|);
              Flush(cfg, st) ==
                Flush(cfg, st.(wire := st.wire + st.buffer[..n], buffer := st.buffer[n..], writes := st.writes + 1))
  {
  }

  /** One BIO_write of handshake data. */
  lemma FlightStep(cfg: Config, st: State)
    requires st.flight.Some?
    ensures st.flight.value == [] ==> FlightOut(cfg, st) == (st, 1)
    ensures st.flight.value != [] && cfg.bio(st.writes) <= 0 ==>
              FlightOut(cfg, st) == (st.(writes := st.writes + 1), cfg.bio(st.writes))
    ensures st.flight.value != [] && cfg.bio(st.writes) > 0 ==>
              var left := st.flight.value;
              var n := Min(cfg.bio(st.writes), |left|);
              FlightOut(cfg, st) ==
                FlightOut(cfg, st.(wire := st.wire + left[..n], log := st.log + [Flight(left[..n])],
                                   flight := Some(left[n..]), writes := st.writes + 1))
  {
  }

  lemma TookFlight(st: State)
    ensures TakeFlight(st).flight == None && TakeFlight(st).pending == st.pending && TakeFlight(st).sealed == st.sealed
  {
  }

  /** The capacity that sealing a record asks for now, if any, is one the offset can run through. */
  predicate AskOk(cfg: Config, st: State, len: nat) {
    st.pending.Some? || st.buffer != [] || len == 0 || len > MAX_PLAIN_LENGTH
    || CapOk(len + cfg.overhead + |FlightBytes(st)|)
  }

  /** So is every capacity that the loop of ssl3_write_app_data asks for. */
  predicate AsksOk(cfg: Config, st: State, addr: nat, data: seq<byte>, tot: nat)
    requires tot <= |data| && PendingOk(st)
    decreases |data| - tot
  {
    RecordLimit(cfg, st).Some? ==>
      var nw := Min(|data| - tot, RecordLimit(cfg, st).value);
      && AskOk(cfg, st, nw)
      && var (st', ret) := DoWrite(cfg, st, RT_APPLICATION_DATA, addr + tot, data[tot..tot + nw]);
         ret > 0 && ret != |data| - tot && !cfg.partialWrite ==> AsksOk(cfg, Spend(st', ret), addr, data, tot + ret)
  }

  lemma AsksStep(cfg: Config, st: State, addr: nat, data: seq<byte>, tot: nat)
    requires tot <= |data| && PendingOk(st) && AsksOk(cfg, st, addr, data, tot) && RecordLimit(cfg, st).Some?
    ensures var nw := Min(|data| - tot, RecordLimit(cfg, st).value);
            && AskOk(cfg, st, nw)
            && var (st', ret) := DoWrite(cfg, st, RT_APPLICATION_DATA, addr + tot, data[tot..tot + nw]);
               ret > 0 && ret != |data| - tot && !cfg.partialWrite ==>
                 tot + ret <= |data| && AsksOk(cfg, Spend(st', ret), addr, data, tot + ret)
  {
    hide DoWrite;
  }

  /** Records only ever take handshake data out of the way. */
  lemma FlightShrinks(cfg: Config, st: State, addr: nat, data: seq<byte>)
    requires PendingOk(st)
    ensures |FlightBytes(DoWrite(cfg, st, RT_APPLICATION_DATA, addr, data).0)| <= |FlightBytes(st)|
  {
    hide Flush;
  }

  /** With little handshake data waiting, every capacity a write asks for is one the offset can run through. */
  lemma {:induction false} SmallFlightAsksOk(cfg: Config, st: State, addr: nat, data: seq<byte>, tot: nat)
    requires tot <= |data| && PendingOk(st) && ConfigOk(cfg)
    requires |FlightBytes(st)| + cfg.overhead + cfg.maxFragment + ALIGN - 1 <= MAX_CAP
    ensures AsksOk(cfg, st, addr, data, tot)
    decreases |data| - tot
  {
    hide DoWrite;
    if RecordLimit(cfg, st).Some? {
      var nw := Min(|data| - tot, RecordLimit(cfg, st).value);
      FlightShrinks(cfg, st, addr + tot, data[tot..tot + nw]);
      var (st', ret) := DoWrite(cfg, st, RT_APPLICATION_DATA, addr + tot, data[tot..tot + nw]);
      if ret > 0 && ret != |data| - tot && !cfg.partialWrite {
        SmallFlightAsksOk(cfg, Spend(st', ret), addr, data, tot + ret);
      }
    }
  }

  class Writer {
    const cfg: Config
    const buffer: SSLBuffer
    var wnum: nat
    var pending: Option<Pending>
    var flight: Option<seq<byte>>
    var earlyLeft: Option<nat>
    var shutdown: bool
    var sealed: nat
    var writes: nat
    ghost var wire: seq<byte>
    ghost var log: seq<Emitted>

    ghost predicate Valid()
      reads this, buffer, buffer.buf
    {
      ConfigOk(cfg) && buffer.Valid() && buffer.NoWrap() && PendingOk(Abs())
    }

    ghost function Abs(): State
      requires buffer.Valid()
      reads this, buffer, buffer.buf
    {
      State(wnum, pending, buffer.Contents(), flight, earlyLeft, shutdown, wire, log, sealed, writes)
    }

    constructor (cfg: Config)
      requires ConfigOk(cfg)
      ensures Valid() && fresh(buffer) && this.cfg == cfg
      ensures Abs() == State(0, None, [], None, None, false, [], [], 0, 0)
    {
      this.cfg := cfg;
      buffer := new SSLBuffer();
      wnum, pending, flight, earlyLeft, shutdown, sealed, writes := 0, None, None, None, false, 0, 0;
      wire, log := [], [];
    }

    /** tls_write_buffer_flush. */
    method FlushBuffer() returns (ret: int)
      requires Valid()
      modifies this`writes, this`wire, buffer
      ensures Valid() && (Abs(), ret) == Flush(cfg, old(Abs()))
      ensures buffer.buf == old(buffer.buf) || buffer.buf == null
    {
      hide Flush;
      hide ConfigOk;
      ghost var st := Abs();
      while buffer.size > 0
        invariant Valid() && buffer.buf == old(buffer.buf)
        invariant Flush(cfg, st) == Flush(cfg, Abs())
        decreases buffer.size
      {
        FlushStep(cfg, Abs());
        ret := cfg.bio(writes);
        writes := writes + 1;
        if ret <= 0 {
          return;
        }
        var n := if ret > buffer.size then buffer.size else ret;
        wire := wire + buffer.Contents()[..n];
        buffer.Consume(n);
      }
      FlushStep(cfg, Abs());
      buffer.Clear();
      return 1;
    }

    /** The loop of ssl3_flush_flight. */
    method WriteFlight() returns (ret: int)
      requires Valid() && flight.Some? && buffer.size == 0
      modifies this`writes, this`wire, this`log, this`flight
      ensures Valid() && flight.Some? && (Abs(), ret) == FlightOut(cfg, old(Abs()))
    {
      hide FlightOut;
      hide ConfigOk;
      ghost var st := Abs();
      while flight.value != []
        invariant Valid() && flight.Some?
        invariant FlightOut(cfg, st) == FlightOut(cfg, Abs())
        decreases |flight.value|
      {
        FlightStep(cfg, Abs());
        ret := cfg.bio(writes);
        writes := writes + 1;
        if ret <= 0 {
          return;
        }
        var n := if ret > |flight.value| then |flight.value| else ret;
        wire := wire + flight.value[..n];
        log := log + [Flight(flight.value[..n])];
        flight := Some(flight.value[n..]);
      }
      FlightStep(cfg, Abs());
      return 1;
    }

    /** ssl3_flush_flight. */
    method SendFlightNow(flushOk: bool) returns (ret: int)
      requires Valid()
      modifies this`writes, this`wire, this`log, this`flight, buffer
      ensures Valid() && (Abs(), ret) == FlushFlight(cfg, old(Abs()), flushOk)
    {
      hide Flush;
      hide FlightOut;
      hide ConfigOk;
      if flight.None? {
        return 1;
      }
      if shutdown {
        return -1;
      }
      ret := FlushBuffer();
      if ret <= 0 {
        return;
      }
      assert |buffer.Contents()| == 0;
      ret := WriteFlight();
      if ret <= 0 {
        return;
      }
      if !flushOk {
        return -1;
      }
      flight := None;
      return 1;
    }

    /** ssl3_write_pending. */
    method Resume(typ: byte, addr: nat, len: nat) returns (ret: int)
      requires Valid() && pending.Some?
      modifies this`writes, this`wire, this`pending, buffer
      ensures Valid() && (Abs(), ret) == WritePending(cfg, old(Abs()), typ, addr, len)
      ensures buffer.buf == old(buffer.buf) || buffer.buf == null
    {
      hide Flush;
      var p := pending.value;
      if p.tot > len || (!cfg.movingBuffer && p.addr != addr) || p.typ != typ {
        return -1;
      }
      ret := FlushBuffer();
      if ret <= 0 {
        return;
      }
      pending := None;
      return p.ret;
    }

    /** Any unflushed handshake data goes in front of the record. */
    method PrependFlight()
      requires Valid() && buffer.size + |FlightBytes(Abs())| <= buffer.cap
      modifies this`log, this`flight, buffer`size, buffer.buf
      ensures Valid() && Abs() == TakeFlight(old(Abs())) && buffer.buf == old(buffer.buf)
      ensures buffer.cap == old(buffer.cap) && buffer.size == old(buffer.size) + |FlightBytes(old(Abs()))|
    {
      if flight.Some? {
        buffer.Append(flight.value);
        log := log + [Flight(flight.value)];
        flight := None;
      }
    }

    /** Seal a record into the buffer and memorise the arguments for a retry. */
    method SealInto(typ: byte, addr: nat, data: seq<byte>) returns (ok: bool)
      requires Valid() && data != [] && pending.None? && buffer.size + |data| + cfg.overhead <= buffer.cap
      modifies this`log, this`sealed, this`pending, buffer`size, buffer.buf
      ensures Valid() && buffer.buf == old(buffer.buf) && ok == cfg.seal(old(sealed), typ, data).Some?
      ensures Abs() == if ok then Sealed(old(Abs()), typ, addr, data, cfg.seal(old(sealed), typ, data).value) else old(Abs())
    {
      var bytes := cfg.seal(sealed, typ, data);
      if bytes.None? {
        return false;
      }
      buffer.Append(bytes.value);
      log := log + [Record(typ, data, bytes.value)];
      sealed := sealed + 1;
      pending := Some(Pending(|data|, addr, typ, |data|));
      return true;
    }

    /** do_ssl3_write; the allocator places a new buffer at memory. */
    method WriteRecord(typ: byte, addr: nat, data: seq<byte>, memory: nat) returns (ret: int)
      requires Valid() && AskOk(cfg, Abs(), |data|)
      modifies this`writes, this`wire, this`log, this`flight, this`sealed, this`pending, buffer, buffer.buf
      ensures Valid() && (Abs(), ret) == DoWrite(cfg, old(Abs()), typ, addr, data)
      ensures buffer.buf == old(buffer.buf) || buffer.buf == null || fresh(buffer.buf)
    {
      hide WritePending;
      hide TakeFlight;
      hide ConfigOk;
      ghost var st := Abs();
      if pending.Some? {
        ret := Resume(typ, addr, |data|);
        return;
      }
      if |data| > MAX_PLAIN_LENGTH || buffer.size > 0 {
        return -1;
      }
      if data == [] {
        return 0;
      }
      var flightLen := if flight.Some? then |flight.value| else 0;
      var ok := buffer.EnsureCap(flightLen + RT_HEADER_LENGTH, |data| + cfg.overhead + flightLen, memory);
      if !ok {
        return -1;
      }
      assert Abs() == st && buffer.size == |buffer.Contents()| == 0 && flightLen == |FlightBytes(st)|;
      PrependFlight();
      TookFlight(st);
      ok := SealInto(typ, addr, data);
      if !ok {
        return -1;
      }
      ret := Resume(typ, addr, |data|);
    }

    /** ssl3_write_app_data. */
    method Write(addr: nat, data: seq<byte>, memory: nat -> nat) returns (ret: int)
      requires Valid() && (shutdown || |data| < wnum || AsksOk(cfg, Abs().(wnum := 0), addr, data, wnum))
      modifies this, buffer, buffer.buf
      ensures Valid() && (Abs(), ret) == WriteAppData(cfg, old(Abs()), addr, data)
    {
      hide DoWrite;
      hide WriteLoop;
      hide ConfigOk;
      ghost var st := Abs();
      if shutdown {
        return -1;
      }
      var tot := wnum;
      SetNum(0);
      if |data| < tot {
        return -1;
      }
      var done := false;
      ret := 0;
      while !done
        invariant Valid() && tot <= |data| && (!done ==> AsksOk(cfg, Abs(), addr, data, tot))
        invariant buffer.buf == old(buffer.buf) || buffer.buf == null || fresh(buffer.buf)
        invariant if done then WriteAppData(cfg, st, addr, data) == (Abs(), ret)
                  else WriteAppData(cfg, st, addr, data) == WriteLoop(cfg, Abs(), addr, data, tot)
        decreases !done, |data| - tot
      {
        ret, done := WriteOnce(addr, data, tot, memory(tot));
        if !done {
          tot := tot + ret;
        }
      }
    }

    /** One round of the loop of ssl3_write_app_data. */
    method WriteOnce(addr: nat, data: seq<byte>, tot: nat, memory: nat) returns (ret: int, done: bool)
      requires Valid() && tot <= |data| && AsksOk(cfg, Abs(), addr, data, tot)
      modifies this, buffer, buffer.buf
      ensures Valid() && (!done ==> 0 < ret <= |data| - tot && AsksOk(cfg, Abs(), addr, data, tot + ret))
      ensures buffer.buf == old(buffer.buf) || buffer.buf == null || fresh(buffer.buf)
      ensures done ==> WriteLoop(cfg, old(Abs()), addr, data, tot) == (Abs(), ret)
      ensures !done ==> WriteLoop(cfg, old(Abs()), addr, data, tot) == WriteLoop(cfg, Abs(), addr, data, tot + ret)
    {
      hide DoWrite;
      hide WriteLoop;
      hide ConfigOk;
      hide AsksOk;
      hide AskOk;
      hide PendingOk;
      LoopStep(cfg, Abs(), addr, data, tot);
      if RecordLimit(cfg, Abs()).Some? { AsksStep(cfg, Abs(), addr, data, tot); }
      var max := cfg.maxFragment;
      if earlyLeft.Some? && max > earlyLeft.value {
        max := earlyLeft.value;
        if max == 0 {
          SetNum(tot);
          return -1, true;
        }
      }
      var n := |data| - tot;
      var nw := if n > max then max else n;
      ret := WriteRecord(RT_APPLICATION_DATA, addr + tot, data[tot..tot + nw], memory);
      if ret <= 0 {
        SetNum(tot);
        return ret, true;
      }
      SpendEarly(ret);
      if ret == n || cfg.partialWrite {
        return tot + ret, true;
      }
      return ret, false;
    }

    /** Count early data written. */
    method SpendEarly(n: nat)
      requires Valid()
      modifies this`earlyLeft
      ensures Valid() && Abs() == Spend(old(Abs()), n)
    {
      if earlyLeft.Some? {
        earlyLeft := Some(if n <= earlyLeft.value then earlyLeft.value - n else 0);
      }
    }

    method SetNum(tot: nat)
      requires Valid()
      modifies this`wnum
      ensures Valid() && Abs() == old(Abs()).(wnum := tot)
    {
      wnum := tot;
    }
  }
}
