/**
 The DTLS record layer: dtls_seal_record with its current and previous write epochs,
 dtls_open_record with the anti-replay window, and the cipher changes of dtls_method.cc.
 */
module DtlsRecord {
  import opened Wrappers
  import opened Bytes
  import opened Aead
  import opened DtlsReplay

  const RT_HEADER_LENGTH: nat := 13
  const MAX_ENCRYPTED_LENGTH: nat := 16704
  const MAX_PLAIN_LENGTH: nat := 16384
  const RT_ALERT: byte := 21
  const VERSION_MAJOR: nat := 0xfe
  const SEQ_LIMIT: nat := 0x1_0000_0000_0000   // 2^48: six octets of sequence number
  const EPOCH_LIMIT: nat := 0x1_0000

  // ---- Writing ------------------------------------------------------------------------------

  /** One direction's key and its next sequence number. */
  datatype Epoch = Epoch(aead: Aead, next: nat)

  /** w_epoch, the current key, the key kept for retransmissions, and the randomness still to be drawn. */
  datatype WriteState = WriteState(epoch: nat, current: Epoch, previous: Option<Epoch>,
                                   entropy: (nat, nat) -> byte, drawn: nat)

  ghost predicate WriteInv(ws: WriteState) {
    && ws.epoch < EPOCH_LIMIT && ws.current.next < SEQ_LIMIT
    && (ws.epoch >= 1 ==> ws.previous.Some?)
    && (ws.previous.Some? ==> ws.previous.value.next < SEQ_LIMIT && KeyOk(ws.previous.value.aead))
    && KeyOk(ws.current.aead)
    && ws.current.aead.recordVersion < 0x1_0000
  }

  /** A key's layout came from Create. */
  predicate KeyOk(a: Aead) {
    !a.isNull ==> a.layout.Valid()
  }

  /** What RAND_bytes fills the next variable nonce with. */
  function Draw(entropy: (nat, nat) -> byte, drawn: nat, len: nat): (s: seq<byte>)
    ensures |s| == len
  {
    if len == 0 then [] else Draw(entropy, drawn, len - 1) + [entropy(drawn, len - 1)]
  }

  predicate Usable(ws: WriteState, usePrevious: bool) {
    usePrevious ==> ws.epoch >= 1 && ws.previous.Some?
  }

  function Key(ws: WriteState, usePrevious: bool): Epoch
    requires Usable(ws, usePrevious)
  {
    if usePrevious then ws.previous.value else ws.current
  }

  /** The epoch and sequence number as they stand in the header and serve as the AEAD sequence number. */
  function WireSeq(ws: WriteState, usePrevious: bool): (s: seq<byte>)
    requires Usable(ws, usePrevious)
    ensures |s| == 8
  {
    Be(if usePrevious then ws.epoch - 1 else ws.epoch, 2) + Be(Key(ws, usePrevious).next, 6)
  }

  /** ssl_record_sequence_update on the number: step it, reporting wraparound. */
  function Bump(ws: WriteState, usePrevious: bool): (WriteState, bool)
    requires Usable(ws, usePrevious)
  {
    var k := Key(ws, usePrevious);
    var k' := k.(next := (k.next + 1) % SEQ_LIMIT);
    var ws' := if usePrevious then ws.(previous := Some(k')) else ws.(current := k');
    (ws'.(drawn := ws.drawn + 1), k'.next != 0)
  }

  datatype SealResult = Failed | Sealed(record: seq<byte>)

  function RecordBytes(typ: byte, version: nat, wireSeq: seq<byte>, ciphertext: seq<byte>): (s: seq<byte>)
    requires |wireSeq| == 8
    ensures |s| == RT_HEADER_LENGTH + |ciphertext|
  {
    [typ] + Be(version, 2) + wireSeq + Be(|ciphertext|, 2) + ciphertext
  }

  /** dtls_seal_record on values. */
  ghost function SealRecord(ws: WriteState, usePrevious: bool, typ: byte, payload: seq<byte>, maxOut: nat):
      (r: (WriteState, SealResult))
    requires WriteInv(ws) && Usable(ws, usePrevious)
  {
    if maxOut < RT_HEADER_LENGTH then (ws, Failed)
    else
      var version := ws.current.aead.recordVersion;
      var key := Key(ws, usePrevious).aead;
      var ct := key.Seal(typ, version, WireSeq(ws, usePrevious), payload,
                         Draw(ws.entropy, ws.drawn, key.layout.variableLen), maxOut - RT_HEADER_LENGTH);
      if ct.None? then (ws, Failed)
      else
        var (ws', ok) := Bump(ws, usePrevious);
        if !ok || |ct.value| >= 0x1_0000 then (ws', Failed)
        else (ws', Sealed(RecordBytes(typ, version, WireSeq(ws, usePrevious), ct.value)))
  }

  /** dtls1_set_write_state: the current key becomes the previous one. */
  function SetWriteState(ws: WriteState, aead: Aead): WriteState {
    ws.(epoch := (ws.epoch + 1) % EPOCH_LIMIT, current := Epoch(aead, 0), previous := Some(ws.current))
  }

  lemma SealKeepsInv(ws: WriteState, usePrevious: bool, typ: byte, payload: seq<byte>, maxOut: nat)
    requires WriteInv(ws) && Usable(ws, usePrevious)
    ensures WriteInv(SealRecord(ws, usePrevious, typ, payload, maxOut).0)
    ensures var ws' := SealRecord(ws, usePrevious, typ, payload, maxOut).0;
            && ws'.epoch == ws.epoch && ws'.current.aead == ws.current.aead
            && ws'.previous.Some? == ws.previous.Some?
            && (ws.previous.Some? ==> ws'.previous.value.aead == ws.previous.value.aead)
  {
  }

  // ---- No sequence number is used twice under one key ----------------------------------------

  datatype WriteStep = Seal(usePrevious: bool, typ: byte, payload: seq<byte>, maxOut: nat)
                     | ChangeKey(aead: Aead)

  /**
   A sealed record's place: how many key changes had produced its key, its number under that key,
   and the epoch and sequence number it carries on the wire.
   */
  datatype Used = Used(generation: int, aead: Aead, number: nat, wire: seq<byte>)

  /** wrapped holds the keys, by generation, whose counter has wrapped. */
  datatype WriteRun = WriteRun(ws: WriteState, generation: nat, used: seq<Used>, wrapped: set<int>)

  ghost predicate StepOk(ws: WriteState, step: WriteStep) {
    match step
    case Seal(usePrevious, _, _, _) => Usable(ws, usePrevious)
    case ChangeKey(a) => KeyOk(a) && a.recordVersion < 0x1_0000
  }

  /** The generation of the key a seal chooses. */
  function Chosen(run: WriteRun, usePrevious: bool): int {
    if usePrevious then run.generation - 1 else run.generation
  }

  ghost function WriteNext(run: WriteRun, step: WriteStep): WriteRun
    requires WriteInv(run.ws) && StepOk(run.ws, step)
  {
    match step
    case Seal(usePrevious, typ, payload, maxOut) =>
      var key := Key(run.ws, usePrevious);
      var (ws', result) := SealRecord(run.ws, usePrevious, typ, payload, maxOut);
      run.(ws := ws',
           used := if result.Sealed?
                   then run.used + [Used(Chosen(run, usePrevious), key.aead, key.next, WireSeq(run.ws, usePrevious))]
                   else run.used,
           wrapped := if Wraps(run, step) then run.wrapped + {Chosen(run, usePrevious)} else run.wrapped)
    case ChangeKey(a) =>
      run.(ws := SetWriteState(run.ws, a), generation := run.generation + 1)
  }

  /** A seal that gets as far as stepping a counter that stands at its last value. */
  ghost predicate Wraps(run: WriteRun, step: WriteStep)
    requires WriteInv(run.ws) && StepOk(run.ws, step)
  {
    && step.Seal?
    && Key(run.ws, step.usePrevious).next == SEQ_LIMIT - 1
    && SealRecord(run.ws, step.usePrevious, step.typ, step.payload, step.maxOut).0 != run.ws
  }

  /** A run from a fresh connection: each state follows from the one before by an allowed step. */
  ghost predicate IsWriteRun(run: seq<WriteRun>, steps: seq<WriteStep>) {
    && |run| == |steps| + 1
    && WriteInv(run[0].ws) && run[0].ws.epoch == 0 && run[0].ws.current.next == 0 && run[0].ws.previous.None?
    && run[0].generation == 0 && run[0].used == [] && run[0].wrapped == {}
    && forall i | 0 <= i < |steps| ::
         WriteInv(run[i].ws) && StepOk(run[i].ws, steps[i]) && run[i + 1] == WriteNext(run[i], steps[i])
  }

  ghost predicate UsedInv(run: WriteRun) {
    && WriteInv(run.ws)
    && (run.ws.previous.Some? <==> run.generation >= 1)
    && run.ws.epoch == run.generation % EPOCH_LIMIT
    && (forall g | g in run.wrapped :: 0 <= g <= run.generation)
    && (forall i | 0 <= i < |run.used| :: Behind(run, run.used[i]))
    && Distinct(run.used, run.wrapped)
  }

  /** What number stands in the header for a key's generation. */
  function WireOf(generation: int, number: nat): (s: seq<byte>)
    ensures |s| == 8
  {
    Be(generation % EPOCH_LIMIT, 2) + Be(number, 6)
  }

  /** A used number is behind the counter of its key, unless that has wrapped. */
  ghost predicate Behind(run: WriteRun, u: Used) {
    && 0 <= u.generation <= run.generation
    && u.number < SEQ_LIMIT && u.wire == WireOf(u.generation, u.number)
    && (u.generation == run.generation ==>
          u.aead == run.ws.current.aead && (u.generation in run.wrapped || u.number < run.ws.current.next))
    && (u.generation + 1 == run.generation && run.ws.previous.Some? ==>
          && u.aead == run.ws.previous.value.aead
          && (u.generation in run.wrapped || u.number < run.ws.previous.value.next))
  }

  predicate SameNumber(u: Used, v: Used) {
    u.generation == v.generation && u.number == v.number
  }

  /** Under a key whose counter has not wrapped no number is used twice. */
  ghost predicate Distinct(used: seq<Used>, wrapped: set<int>) {
    forall i, j | 0 <= i < j < |used| && used[i].generation !in wrapped :: !SameNumber(used[i], used[j])
  }

  lemma WriteNextKeepsUsed(run: WriteRun, step: WriteStep)
    requires UsedInv(run) && StepOk(run.ws, step)
    ensures UsedInv(WriteNext(run, step))
  {
    var run' := WriteNext(run, step);
    forall i | 0 <= i < |run.used| ensures Behind(run', run.used[i]) {
      BehindKept(run, step, run.used[i]);
    }
    if step.Seal? {
      SealKeepsInv(run.ws, step.usePrevious, step.typ, step.payload, step.maxOut);
      if run'.used != run.used {
        NewBehind(run, step);
      }
    }
  }

  lemma BehindKept(run: WriteRun, step: WriteStep, u: Used)
    requires UsedInv(run) && StepOk(run.ws, step) && Behind(run, u)
    ensures Behind(WriteNext(run, step), u)
  {
  }

  /** A newly used number is behind its key's counter afterwards, and ahead of every earlier one. */
  lemma NewBehind(run: WriteRun, step: WriteStep)
    requires UsedInv(run) && StepOk(run.ws, step) && WriteNext(run, step).used != run.used
    ensures var run' := WriteNext(run, step);
            && |run'.used| == |run.used| + 1 && run'.used[..|run.used|] == run.used
            && Behind(run', run'.used[|run.used|]) && Distinct(run'.used, run'.wrapped)
  {
    var run' := WriteNext(run, step);
    var u := NewUse(run, step);
    WireSeqOf(run, step.usePrevious);
    forall i | 0 <= i < |run.used| && run.used[i].generation !in run.wrapped
      ensures !SameNumber(run.used[i], u)
    {
      assert Behind(run, run.used[i]);
    }
  }

  /** The use a seal records when it succeeds; it has not wrapped its counter then. */
  lemma NewUse(run: WriteRun, step: WriteStep) returns (u: Used)
    requires WriteInv(run.ws) && StepOk(run.ws, step) && WriteNext(run, step).used != run.used
    ensures step.Seal?
    ensures u == Used(Chosen(run, step.usePrevious), Key(run.ws, step.usePrevious).aead,
                      Key(run.ws, step.usePrevious).next, WireSeq(run.ws, step.usePrevious))
    ensures WriteNext(run, step) == run.(ws := Bump(run.ws, step.usePrevious).0, used := run.used + [u])
    ensures u.number < SEQ_LIMIT - 1
  {
    u := Used(Chosen(run, step.usePrevious), Key(run.ws, step.usePrevious).aead,
              Key(run.ws, step.usePrevious).next, WireSeq(run.ws, step.usePrevious));
  }

  lemma WireSeqOf(run: WriteRun, usePrevious: bool)
    requires UsedInv(run) && Usable(run.ws, usePrevious)
    ensures WireSeq(run.ws, usePrevious) == WireOf(Chosen(run, usePrevious), Key(run.ws, usePrevious).next)
  {
    if usePrevious { PreviousEpoch(run.generation); }
  }

  lemma PreviousEpoch(generation: nat)
    requires generation % EPOCH_LIMIT >= 1
    ensures (generation - 1) % EPOCH_LIMIT == generation % EPOCH_LIMIT - 1
  {
  }

  lemma {:induction false} RunKeepsUsed(run: seq<WriteRun>, steps: seq<WriteStep>, n: nat)
    requires IsWriteRun(run, steps) && n <= |steps|
    ensures UsedInv(run[n])
  {
    if n > 0 {
      assert run[n] == WriteNext(run[n - 1], steps[n - 1]);
      RunKeepsUsed(run, steps, n - 1);
      WriteNextKeepsUsed(run[n - 1], steps[n - 1]);
    }
  }

  /**
   In every run, under a key whose counter has not wrapped, whatever the interleaving of
   current-epoch records with previous-epoch retransmissions: two sealed records have different
   sequence numbers, and, when the key's nonces are counters, different nonces.
   */
  lemma NoNonceReuse(run: seq<WriteRun>, steps: seq<WriteStep>, n: nat, i: nat, j: nat)
    requires IsWriteRun(run, steps) && n <= |steps|
    requires i < j < |run[n].used| && run[n].used[i].generation == run[n].used[j].generation
    requires run[n].used[i].generation !in run[n].wrapped
    ensures var u, v := run[n].used[i], run[n].used[j];
            && u.wire != v.wire
            && (v.aead == u.aead && u.aead.layout.Valid() && !u.aead.layout.random ==>
                  |u.wire| == |v.wire| == 8 && u.aead.Nonce(u.wire) != u.aead.Nonce(v.wire))
  {
    RunKeepsUsed(run, steps, n);
    var u, v := run[n].used[i], run[n].used[j];
    assert !SameNumber(u, v);
    assert Behind(run[n], u) && Behind(run[n], v);
    if u.wire == v.wire { WireInjective(u, v); }
    if u.aead.layout.Valid() && !u.aead.layout.random && u.aead.Nonce(u.wire) == u.aead.Nonce(v.wire) {
      u.aead.NonceInjective(u.wire, v.wire);
    }
  }

  /** With fewer than 2^16 key changes and no wrap, no two sealed records carry the same epoch and number at all. */
  lemma NoWirePairReuse(run: seq<WriteRun>, steps: seq<WriteStep>, n: nat, i: nat, j: nat)
    requires IsWriteRun(run, steps) && n <= |steps| && run[n].wrapped == {} && run[n].generation < EPOCH_LIMIT
    requires i < j < |run[n].used|
    ensures run[n].used[i].wire != run[n].used[j].wire
  {
    RunKeepsUsed(run, steps, n);
    var u, v := run[n].used[i], run[n].used[j];
    assert !SameNumber(u, v);
    assert Behind(run[n], u) && Behind(run[n], v);
    if u.wire == v.wire { WireInjective(u, v); }
  }

  lemma WireInjective(u: Used, v: Used)
    requires u.number < SEQ_LIMIT && u.wire == WireOf(u.generation, u.number)
    requires v.number < SEQ_LIMIT && v.wire == WireOf(v.generation, v.number)
    requires u.wire == v.wire
    ensures u.number == v.number && u.generation % EPOCH_LIMIT == v.generation % EPOCH_LIMIT
  {
    assert u.wire[..2] == Be(u.generation % EPOCH_LIMIT, 2) && u.wire[2..] == Be(u.number, 6);
    assert v.wire[..2] == Be(v.generation % EPOCH_LIMIT, 2) && v.wire[2..] == Be(v.number, 6);
    assert Pow256(6) == SEQ_LIMIT && Pow256(2) == EPOCH_LIMIT;
    BeInjective(u.generation % EPOCH_LIMIT, v.generation % EPOCH_LIMIT, 2);
    BeInjective(u.number, v.number, 6);
  }

  // ---- Exactly when a number is used twice -----------------------------------------------------

  /** No record of the step can reach 2^16 octets, so a number is skipped only by a wrap. */
  predicate Modest(step: WriteStep) {
    step.Seal? ==> step.maxOut <= RT_HEADER_LENGTH + 0xffff
  }

  /** Sealing writes no more than it was given room for. */
  ghost predicate Fitting(a: Aead) {
    a.isNull || a.Ideal()
  }

  ghost predicate StepFits(step: WriteStep) {
    Modest(step) && (step.ChangeKey? ==> Fitting(step.aead))
  }

  ghost predicate AllFit(run: seq<WriteRun>, steps: seq<WriteStep>)
    requires |run| > 0
  {
    Fitting(run[0].ws.current.aead) && forall i | 0 <= i < |steps| :: StepFits(steps[i])
  }

  /** Number number has been used under the key of a generation. */
  ghost predicate IsUsed(used: seq<Used>, generation: int, number: nat) {
    exists i :: 0 <= i < |used| && used[i].generation == generation && used[i].number == number
  }

  /** Every number a key's counter has passed has been used: all below it, or after a wrap all but the last. */
  ghost predicate UsedUp(run: WriteRun, generation: int, k: Epoch) {
    && Fitting(k.aead)
    && forall m: nat | m < (if generation in run.wrapped then SEQ_LIMIT - 1 else k.next) ::
         IsUsed(run.used, generation, m)
  }

  ghost predicate AllUsedUp(run: WriteRun) {
    && UsedUp(run, run.generation, run.ws.current)
    && (run.ws.previous.Some? ==> UsedUp(run, run.generation - 1, run.ws.previous.value))
  }

  /** With room for less than 2^16 octets a seal fails without a step of the counter, wraps, or succeeds. */
  lemma ModestSeal(run: WriteRun, step: WriteStep)
    requires WriteInv(run.ws) && StepOk(run.ws, step) && step.Seal? && Modest(step)
    requires Fitting(Key(run.ws, step.usePrevious).aead)
    ensures var run' := WriteNext(run, step);
            || run' == run
            || (Wraps(run, step) && run'.used == run.used)
            || run'.used != run.used
  {
    hide Aead.Seal, RecordBytes, WireSeq, Draw, Fitting;
    var ws, usePrevious := run.ws, step.usePrevious;
    if step.maxOut >= RT_HEADER_LENGTH {
      ShortCiphertext(ws, usePrevious, step.typ, step.payload, step.maxOut);
    }
  }

  lemma ShortCiphertext(ws: WriteState, usePrevious: bool, typ: byte, payload: seq<byte>, maxOut: nat)
    requires WriteInv(ws) && Usable(ws, usePrevious) && Fitting(Key(ws, usePrevious).aead)
    requires RT_HEADER_LENGTH <= maxOut <= RT_HEADER_LENGTH + 0xffff
    ensures var key := Key(ws, usePrevious).aead;
            var ct := key.Seal(typ, ws.current.aead.recordVersion, WireSeq(ws, usePrevious), payload,
                               Draw(ws.entropy, ws.drawn, key.layout.variableLen), maxOut - RT_HEADER_LENGTH);
            ct.Some? ==> |ct.value| < 0x1_0000
  {
    var key := Key(ws, usePrevious).aead;
    key.SealLength(typ, ws.current.aead.recordVersion, WireSeq(ws, usePrevious), payload,
                   Draw(ws.entropy, ws.drawn, key.layout.variableLen), maxOut - RT_HEADER_LENGTH);
  }

  lemma StepUsesUp(run: WriteRun, step: WriteStep)
    requires UsedInv(run) && AllUsedUp(run) && StepOk(run.ws, step) && StepFits(step)
    ensures AllUsedUp(WriteNext(run, step))
  {
    if step.ChangeKey? {
      hide IsUsed;
      assert run.generation + 1 !in run.wrapped;
    } else {
      hide UsedUp, SealRecord;
      assert Fitting(Key(run.ws, step.usePrevious).aead) by { FittingKey(run, step.usePrevious); }
      ModestSeal(run, step);
      if WriteNext(run, step).used != run.used {
        SealUsesUp(run, step);
      } else if WriteNext(run, step) != run {
        WrapUsesUp(run, step);
      }
    }
  }

  lemma FittingKey(run: WriteRun, usePrevious: bool)
    requires AllUsedUp(run) && Usable(run.ws, usePrevious)
    ensures Fitting(Key(run.ws, usePrevious).aead)
  {
    hide IsUsed;
  }

  lemma SealUsesUp(run: WriteRun, step: WriteStep)
    requires UsedInv(run) && AllUsedUp(run) && StepOk(run.ws, step) && WriteNext(run, step).used != run.used
    ensures AllUsedUp(WriteNext(run, step))
  {
    var u := NewUse(run, step);
    UsesGrow(run.used, u);
    hide WriteNext, UsedInv, IsUsed;
  }

  lemma UsesGrow(used: seq<Used>, u: Used)
    ensures IsUsed(used + [u], u.generation, u.number)
    ensures forall g, m | IsUsed(used, g, m) :: IsUsed(used + [u], g, m)
  {
    assert (used + [u])[|used|] == u;
    forall g, m | IsUsed(used, g, m) ensures IsUsed(used + [u], g, m) {
      var i :| 0 <= i < |used| && used[i].generation == g && used[i].number == m;
      assert (used + [u])[i] == used[i];
    }
  }

  lemma WrapUsesUp(run: WriteRun, step: WriteStep)
    requires UsedInv(run) && AllUsedUp(run) && StepOk(run.ws, step) && Wraps(run, step)
    requires WriteNext(run, step).used == run.used
    ensures AllUsedUp(WriteNext(run, step))
  {
  }

  lemma {:induction false} RunUsesUp(run: seq<WriteRun>, steps: seq<WriteStep>, n: nat)
    requires IsWriteRun(run, steps) && AllFit(run, steps) && n <= |steps|
    ensures AllUsedUp(run[n])
  {
    if n > 0 {
      RunUsesUp(run, steps, n - 1);
      RunKeepsUsed(run, steps, n - 1);
      StepUsesUp(run[n - 1], steps[n - 1]);
    }
  }

  /** Step n of a run seals a record. */
  ghost predicate Seals(run: seq<WriteRun>, n: nat)
    requires n + 1 < |run|
  {
    run[n + 1].used != run[n].used
  }

  /**
   In every run whose records stay below 2^16 octets: a successful seal repeats a number already used
   under its key if and only if that key's counter has wrapped before.
   */
  lemma RepeatsExactlyAfterWrap(run: seq<WriteRun>, steps: seq<WriteStep>, n: nat)
    requires IsWriteRun(run, steps) && AllFit(run, steps) && n < |steps| && Seals(run, n)
    ensures var used, u := run[n].used, run[n + 1].used[|run[n].used|];
            && run[n + 1].used == used + [u]
            && ((exists i :: 0 <= i < |used| && used[i].generation == u.generation && used[i].wire == u.wire)
                <==> u.generation in run[n].wrapped)
  {
    RunKeepsUsed(run, steps, n);
    RunUsesUp(run, steps, n);
    var u := NewUse(run[n], steps[n]);
    var used := run[n].used;
    assert run[n + 1].used == used + [u] && (used + [u])[|used|] == u;
    WireSeqOf(run[n], steps[n].usePrevious);
    if u.generation in run[n].wrapped {
      assert IsUsed(used, u.generation, u.number);
      var i :| 0 <= i < |used| && used[i].generation == u.generation && used[i].number == u.number;
      assert Behind(run[n], used[i]);
    } else {
      forall i | 0 <= i < |used| && used[i].generation == u.generation ensures used[i].wire != u.wire {
        assert Behind(run[n], used[i]);
        if used[i].wire == u.wire { WireInjective(used[i], u); }
      }
    }
  }

  /** A key's counter has wrapped exactly if an earlier step sealed under it with the counter at its last value. */
  lemma {:induction false} WrappedMeans(run: seq<WriteRun>, steps: seq<WriteStep>, n: nat, generation: int)
    requires IsWriteRun(run, steps) && n <= |steps|
    ensures generation in run[n].wrapped <==>
              exists m :: 0 <= m < n && Wraps(run[m], steps[m]) && Chosen(run[m], steps[m].usePrevious) == generation
  {
    if n > 0 {
      WrappedMeans(run, steps, n - 1, generation);
      assert run[n] == WriteNext(run[n - 1], steps[n - 1]);
    }
  }

  lemma StepRepeats(run: seq<WriteRun>, steps: seq<WriteStep>, n: nat)
    requires IsWriteRun(run, steps) && AllFit(run, steps) && n < |steps|
    ensures Repeats(run[n + 1].used) <==> Repeats(run[n].used) || SealsWrapped(run, n)
  {
    hide WriteNext, AllFit, Repeats;
    if Seals(run, n) {
      RepeatsExactlyAfterWrap(run, steps, n);
      RepeatsGrow(run[n].used, run[n + 1].used[|run[n].used|]);
    }
  }

  /** So a run uses a number twice if and only if some step seals under a key whose counter has wrapped. */
  lemma {:induction false} RunRepeatsExactly(run: seq<WriteRun>, steps: seq<WriteStep>, n: nat)
    requires IsWriteRun(run, steps) && AllFit(run, steps) && n <= |steps|
    ensures Repeats(run[n].used) <==> exists m :: 0 <= m < n && SealsWrapped(run, m)
  {
    hide WriteNext, AllFit, SealsWrapped;
    if n > 0 {
      RunRepeatsExactly(run, steps, n - 1);
      StepRepeats(run, steps, n - 1);
    }
  }

  /** 2^48 records of a fresh connection, all ChangeCipherSpecs here, bring the counter back to zero. */
  lemma {:induction false} SealsFromFresh(ws: WriteState, k: nat) returns (run: seq<WriteRun>, steps: seq<WriteStep>)
    requires WriteInv(ws) && ws.epoch == 0 && ws.current.next == 0 && ws.previous.None?
    requires ws.current.aead.isNull && !ws.current.aead.layout.inRecord
    ensures |steps| == k && IsWriteRun(run, steps) && AllFit(run, steps)
    ensures forall i | 0 <= i <= k :: FromFresh(run[i], i)
    ensures run[0].ws == ws
    ensures var w := run[k].ws;
            w.current == Epoch(ws.current.aead, k % SEQ_LIMIT) && w.epoch == 0 && w.previous.None? && WriteInv(w)
    ensures k > 0 && k % SEQ_LIMIT != 0 ==> Seals(run, k - 1)
  {
    if k == 0 {
      run, steps := [WriteRun(ws, 0, [], {})], [];
    } else {
      run, steps := SealsFromFresh(ws, k - 1);
      var step := Seal(false, 20, [1], 100);
      var x := run[k - 1];
      OneFromFresh(x, step, k - 1);
      var run', steps' := run + [WriteNext(x, step)], steps + [step];
      forall i | 0 <= i < k
        ensures WriteInv(run'[i].ws) && StepOk(run'[i].ws, steps'[i]) && run'[i + 1] == WriteNext(run'[i], steps'[i])
      {
        if i < k - 1 { assert run'[i + 1] == run[i + 1]; }
      }
      run, steps := run', steps';
    }
  }

  ghost predicate FromFresh(x: WriteRun, k: nat) {
    x.generation == 0 && x.wrapped == if k >= SEQ_LIMIT then {0} else {}
  }

  /** One octet sealed under the null cipher: the counter and the entropy move on, and a wrap fails the seal. */
  lemma OneNullSeal(ws: WriteState)
    requires WriteInv(ws) && ws.current.aead.isNull && !ws.current.aead.layout.inRecord
    ensures var (ws', result) := SealRecord(ws, false, 20, [1], 100);
            && ws' == ws.(current := Epoch(ws.current.aead, (ws.current.next + 1) % SEQ_LIMIT), drawn := ws.drawn + 1)
            && (result.Sealed? <==> ws.current.next != SEQ_LIMIT - 1)
  {
    var key := ws.current.aead;
    assert key.Seal(20, key.recordVersion, WireSeq(ws, false), [1], Draw(ws.entropy, ws.drawn, key.layout.variableLen),
                    100 - RT_HEADER_LENGTH) == Some([1]);
  }

  lemma NextCount(k: nat)
    ensures (k + 1) % SEQ_LIMIT == (k % SEQ_LIMIT + 1) % SEQ_LIMIT
    ensures (k + 1) % SEQ_LIMIT == 0 <==> k % SEQ_LIMIT == SEQ_LIMIT - 1
    ensures k % SEQ_LIMIT == SEQ_LIMIT - 1 ==> k + 1 >= SEQ_LIMIT
    ensures k < SEQ_LIMIT <= k + 1 ==> k % SEQ_LIMIT == SEQ_LIMIT - 1
  {
  }

  lemma OneFromFresh(x: WriteRun, step: WriteStep, k: nat)
    requires WriteInv(x.ws) && x.ws.current.next == k % SEQ_LIMIT && x.ws.previous.None?
    requires x.ws.current.aead.isNull && !x.ws.current.aead.layout.inRecord
    requires step == Seal(false, 20, [1], 100)
    requires FromFresh(x, k)
    ensures var y := WriteNext(x, step);
            && FromFresh(y, k + 1)
            && y.ws == x.ws.(current := Epoch(x.ws.current.aead, (k + 1) % SEQ_LIMIT), drawn := x.ws.drawn + 1)
            && WriteInv(y.ws)
            && ((k + 1) % SEQ_LIMIT != 0 ==> y.used != x.used)
  {
    hide SealRecord;
    NextCount(k);
    OneNullSeal(x.ws);
    SealKeepsInv(x.ws, false, 20, [1], 100);
  }

  /**
   The counter's wraparound is reported by one failed seal and leaves the counter at zero: the record
   sealed after that carries the epoch and number of the first one again.
   */
  lemma SealAfterWrapRepeats(ws: WriteState) returns (run: seq<WriteRun>, steps: seq<WriteStep>)
    requires WriteInv(ws) && ws.epoch == 0 && ws.current.next == 0 && ws.previous.None?
    requires ws.current.aead.isNull && !ws.current.aead.layout.inRecord
    ensures IsWriteRun(run, steps) && run[0].ws == ws && |steps| == SEQ_LIMIT + 1
    ensures !Repeats(run[SEQ_LIMIT].used) && Repeats(run[SEQ_LIMIT + 1].used)
  {
    run, steps := SealsFromFresh(ws, SEQ_LIMIT + 1);
    hide IsWriteRun, AllFit, WriteNext;
    var n: nat := SEQ_LIMIT;
    RepeatsExactlyAfterWrap(run, steps, n);
    RunKeepsUsed(run, steps, n + 1);
    assert Behind(run[n + 1], run[n + 1].used[|run[n].used|]);
    assert FromFresh(run[n], n) && FromFresh(run[n + 1], n + 1);
    assert SealsWrapped(run, n);
    RunRepeatsExactly(run, steps, n);
    RunRepeatsExactly(run, steps, n + 1);
    forall m | 0 <= m < n ensures !SealsWrapped(run, m) { assert FromFresh(run[m], m); }
  }

  ghost predicate Repeats(used: seq<Used>) {
    exists i, j :: 0 <= i < j < |used| && SameRecordNumber(used[i], used[j])
  }

  predicate SameRecordNumber(u: Used, v: Used) {
    u.generation == v.generation && u.wire == v.wire
  }

  ghost predicate SealsWrapped(run: seq<WriteRun>, m: nat)
    requires m + 1 < |run|
  {
    Seals(run, m) && |run[m + 1].used| == |run[m].used| + 1
    && run[m + 1].used[|run[m].used|].generation in run[m].wrapped
  }

  lemma RepeatsGrow(used: seq<Used>, u: Used)
    ensures Repeats(used + [u]) <==>
              Repeats(used) || exists i :: 0 <= i < |used| && used[i].generation == u.generation && used[i].wire == u.wire
  {
    var more := used + [u];
    if Repeats(used) {
      var i, j :| 0 <= i < j < |used| && SameRecordNumber(used[i], used[j]);
      assert SameRecordNumber(more[i], more[j]);
    }
    if i :| 0 <= i < |used| && used[i].generation == u.generation && used[i].wire == u.wire {
      assert SameRecordNumber(more[i], more[|used|]);
    }
    if Repeats(more) {
      var i, j :| 0 <= i < j < |more| && SameRecordNumber(more[i], more[j]);
      if j < |used| { assert SameRecordNumber(used[i], used[j]); }
    }
  }

  // ---- Reading ------------------------------------------------------------------------------

  datatype ReadState = ReadState(epoch: nat, window: Window, aead: Aead, closed: bool)

  ghost predicate ReadInv(rs: ReadState) {
    && rs.epoch < EPOCH_LIMIT && (!rs.aead.isNull ==> rs.aead.layout.Valid())
  }

  datatype OpenRecordResult =
    | CloseNotify
    | NeedMore
    | Dropped(consumed: nat)
    | RecordOverflow(consumed: nat)
    | AlertRecord(alert: seq<byte>, consumed: nat)
    | Opened(typ: byte, plaintext: seq<byte>, consumed: nat)

  /** The header fields and body of the first record of a datagram; None when malformed. */
  datatype RawRecord = RawRecord(typ: byte, version: nat, wireSeq: seq<byte>, body: seq<byte>)

  function ParseRecord(input: seq<byte>): (r: Option<RawRecord>)
    ensures r.Some? ==> |r.value.wireSeq| == 8 && RT_HEADER_LENGTH + |r.value.body| <= |input|
  {
    if |input| < RT_HEADER_LENGTH then None
    else
      var len := FromBe(input[11..13]);
      if |input| - RT_HEADER_LENGTH < len || len > MAX_ENCRYPTED_LENGTH then None
      else Some(RawRecord(input[0], FromBe(input[1..3]), input[3..11], input[RT_HEADER_LENGTH..RT_HEADER_LENGTH + len]))
  }

  predicate VersionOk(rs: ReadState, version: nat) {
    if rs.aead.isNull then version / 256 == VERSION_MAJOR else version == rs.aead.recordVersion
  }

  /** dtls_open_record on values; what ssl_process_alert makes of an alert is not part of it. */
  function OpenRecord(rs: ReadState, input: seq<byte>): (r: (ReadState, OpenRecordResult))
    requires !rs.aead.isNull ==> rs.aead.layout.Valid()
  {
    if rs.closed then (rs, CloseNotify)
    else if input == [] then (rs, NeedMore)
    else
      match ParseRecord(input)
      case None => (rs, Dropped(|input|))
      case Some(raw) =>
        var consumed := RT_HEADER_LENGTH + |raw.body|;
        if !VersionOk(rs, raw.version) then (rs, Dropped(|input|))
        else if FromBe(raw.wireSeq[..2]) != rs.epoch || ShouldDiscard(rs.window, FromBe(raw.wireSeq)) then
          (rs, Dropped(consumed))
        else
          match rs.aead.Open(raw.typ, raw.version, raw.wireSeq, raw.body)
          case None => (rs, Dropped(consumed))
          case Some(plaintext) =>
            if |plaintext| > MAX_PLAIN_LENGTH then (rs, RecordOverflow(consumed))
            else
              var rs' := rs.(window := Record(rs.window, FromBe(raw.wireSeq)));
              (rs', if raw.typ == RT_ALERT then AlertRecord(plaintext, consumed)
                    else Opened(raw.typ, plaintext, consumed))
  }

  predicate Accepts(result: OpenRecordResult) {
    result.AlertRecord? || result.Opened?
  }

  /** dtls1_set_read_state's effect on the record layer. */
  function SetReadState(rs: ReadState, aead: Aead): ReadState {
    rs.(epoch := (rs.epoch + 1) % EPOCH_LIMIT, window := EMPTY_WINDOW, aead := aead)
  }

  // ---- No record is accepted twice ------------------------------------------------------------

  datatype ReadStep = Datagram(input: seq<byte>) | ChangeReadKey(aead: Aead)

  /** accepted holds the 64-bit epoch-and-sequence numbers of the records accepted so far, in order. */
  datatype ReadRun = ReadRun(rs: ReadState, changes: nat, accepted: seq<nat>)

  function ReadNext(run: ReadRun, step: ReadStep): ReadRun
    requires !run.rs.aead.isNull ==> run.rs.aead.layout.Valid()
  {
    match step
    case Datagram(input) =>
      var (rs', result) := OpenRecord(run.rs, input);
      run.(rs := rs', accepted := if Accepts(result) && ParseRecord(input).Some?
                                  then run.accepted + [FromBe(ParseRecord(input).value.wireSeq)] else run.accepted)
    case ChangeReadKey(a) =>
      run.(rs := SetReadState(run.rs, a), changes := run.changes + 1)
  }

  ghost predicate IsReadRun(run: seq<ReadRun>, steps: seq<ReadStep>) {
    && |run| == |steps| + 1
    && ReadInv(run[0].rs) && run[0].rs.epoch == 0 && run[0].rs.window == EMPTY_WINDOW
    && run[0].changes == 0 && run[0].accepted == []
    && (forall i | 0 <= i < |steps| && steps[i].ChangeReadKey? ::
          !steps[i].aead.isNull ==> steps[i].aead.layout.Valid())
    && forall i | 0 <= i < |steps| :: ReadInv(run[i].rs) && run[i + 1] == ReadNext(run[i], steps[i])
  }

  /** The numbers accepted in an epoch. */
  ghost function InEpoch(accepted: seq<nat>, epoch: nat): set<nat> {
    set n | n in accepted && n / SEQ_LIMIT == epoch
  }

  ghost predicate AcceptedInv(run: ReadRun) {
    && ReadInv(run.rs) && run.rs.epoch == run.changes
    && Tracks(run.rs.window, InEpoch(run.accepted, run.rs.epoch))
    && (forall n | n in run.accepted :: n / SEQ_LIMIT <= run.rs.epoch)
    && forall i, j | 0 <= i < j < |run.accepted| :: run.accepted[i] != run.accepted[j]
  }

  /** A number splits into its epoch and its place in the epoch. */
  lemma EpochOfWireSeq(s: seq<byte>)
    requires |s| == 8
    ensures FromBe(s) / SEQ_LIMIT == FromBe(s[..2])
  {
    assert s == s[..2] + s[2..];
    FromBeConcat(s[..2], s[2..]);
    assert Pow256(6) == SEQ_LIMIT;
  }

  lemma ReadNextKeepsAccepted(run: ReadRun, step: ReadStep)
    requires AcceptedInv(run) && ReadNext(run, step).changes < EPOCH_LIMIT
    requires step.ChangeReadKey? && !step.aead.isNull ==> step.aead.layout.Valid()
    ensures AcceptedInv(ReadNext(run, step))
  {
    match step
    case ChangeReadKey(_) =>
      var run' := ReadNext(run, step);
      assert InEpoch(run'.accepted, run'.rs.epoch) == {};
      EmptyTracks();
    case Datagram(input) =>
      DatagramKeepsAccepted(run, input);
  }

  lemma DatagramKeepsAccepted(run: ReadRun, input: seq<byte>)
    requires AcceptedInv(run)
    ensures AcceptedInv(ReadNext(run, Datagram(input)))
  {
    var (rs', result) := OpenRecord(run.rs, input);
    if Accepts(result) {
      var wireSeq := ParseRecord(input).value.wireSeq;
      EpochOfWireSeq(wireSeq);
      AcceptedGrows(run, FromBe(wireSeq));
    }
  }

  lemma AcceptedGrows(run: ReadRun, n: nat)
    requires AcceptedInv(run) && n / SEQ_LIMIT == run.rs.epoch && !ShouldDiscard(run.rs.window, n)
    ensures AcceptedInv(run.(rs := run.rs.(window := Record(run.rs.window, n)), accepted := run.accepted + [n]))
  {
    var seen := InEpoch(run.accepted, run.rs.epoch);
    DiscardExact(run.rs.window, seen, n);
    RecordTracks(run.rs.window, seen, n);
    assert InEpoch(run.accepted + [n], run.rs.epoch) == seen + {n};
    assert n !in run.accepted;
  }

  /**
   Over every run with fewer than 2^16 read-key changes and any datagrams whatever, no epoch and
   sequence number is accepted twice, and the window holds exactly what was accepted in the epoch.
   */
  lemma {:induction false} NoReplayAccepted(run: seq<ReadRun>, steps: seq<ReadStep>, n: nat)
    requires IsReadRun(run, steps) && n <= |steps| && run[n].changes < EPOCH_LIMIT
    ensures AcceptedInv(run[n])
    ensures forall i, j | 0 <= i < j < |run[n].accepted| :: run[n].accepted[i] != run[n].accepted[j]
  {
    if n == 0 {
      assert InEpoch(run[0].accepted, 0) == {};
      EmptyTracks();
    } else {
      hide OpenRecord;
      hide Tracks;
      assert run[n] == ReadNext(run[n - 1], steps[n - 1]);
      NoReplayAccepted(run, steps, n - 1);
      ReadNextKeepsAccepted(run[n - 1], steps[n - 1]);
    }
  }

  /**
   So at any moment of such a run a number of the current epoch is discarded as a replay exactly when it
   has been accepted or is at least 64 below the largest accepted: nothing fresh and newer is lost.
   */
  lemma DiscardsExactlyReplays(run: seq<ReadRun>, steps: seq<ReadStep>, n: nat, number: nat)
    requires IsReadRun(run, steps) && n <= |steps| && run[n].changes < EPOCH_LIMIT
    requires number / SEQ_LIMIT == run[n].rs.epoch
    ensures ShouldDiscard(run[n].rs.window, number) <==>
              number in run[n].accepted || number + WINDOW <= run[n].rs.window.max
  {
    NoReplayAccepted(run, steps, n);
    DiscardExact(run[n].rs.window, InEpoch(run[n].accepted, run[n].rs.epoch), number);
  }

  // ---- Opening what was sealed ----------------------------------------------------------------

  lemma ParseOfRecordBytes(typ: byte, version: nat, wireSeq: seq<byte>, ct: seq<byte>, rest: seq<byte>)
    requires |wireSeq| == 8 && version < 0x1_0000 && |ct| <= MAX_ENCRYPTED_LENGTH
    ensures ParseRecord(RecordBytes(typ, version, wireSeq, ct) + rest) == Some(RawRecord(typ, version, wireSeq, ct))
  {
    var s := RecordBytes(typ, version, wireSeq, ct) + rest;
    assert Pow256(2) == 0x1_0000;
    FromBeOfBe(version, 2);
    FromBeOfBe(|ct|, 2);
    assert s[1..3] == Be(version, 2);
    assert s[3..11] == wireSeq;
    assert s[11..13] == Be(|ct|, 2);
    assert s[13..13 + |ct|] == ct;
  }

  /**
   A sealed record is opened by the peer to the plaintext that was sealed, at the front of any
   datagram, unless the window has already recorded its number or moved 64 past it.
   */
  lemma OpenOfSealedRecord(ws: WriteState, usePrevious: bool, typ: byte, payload: seq<byte>, maxOut: nat,
                           rs: ReadState, accepted: set<nat>, rest: seq<byte>)
    requires WriteInv(ws) && Usable(ws, usePrevious) && typ != RT_ALERT && |payload| <= MAX_PLAIN_LENGTH
    requires SealRecord(ws, usePrevious, typ, payload, maxOut).1.Sealed?
    requires var key := Key(ws, usePrevious).aead;
             && rs.aead == key && !rs.closed && VersionOk(rs, ws.current.aead.recordVersion)
             && (key.isNull || key.Ideal()) && key.MaxOverhead() + MAX_PLAIN_LENGTH <= MAX_ENCRYPTED_LENGTH
    requires rs.epoch == (if usePrevious then ws.epoch - 1 else ws.epoch)
    requires Tracks(rs.window, accepted)
    requires var n := FromBe(WireSeq(ws, usePrevious)); n !in accepted && rs.window.max < n + WINDOW
    ensures var record := SealRecord(ws, usePrevious, typ, payload, maxOut).1.record;
            OpenRecord(rs, record + rest).1 == Opened(typ, payload, |record|)
  {
    hide SealRecord;
    hide Tracks;
    hide ShouldDiscard;
    var key, version, wireSeq := Key(ws, usePrevious).aead, ws.current.aead.recordVersion, WireSeq(ws, usePrevious);
    var ct := SealedOpens(ws, usePrevious, typ, payload, maxOut);
    ParseOfRecordBytes(typ, version, wireSeq, ct, rest);
    assert wireSeq[..2] == Be(rs.epoch, 2);
    assert Pow256(2) == EPOCH_LIMIT;
    FromBeOfBe(rs.epoch, 2);
    DiscardExact(rs.window, accepted, FromBe(wireSeq));
  }

  /** The ciphertext inside a sealed record opens to the payload. */
  lemma SealedOpens(ws: WriteState, usePrevious: bool, typ: byte, payload: seq<byte>, maxOut: nat)
      returns (ct: seq<byte>)
    requires WriteInv(ws) && Usable(ws, usePrevious)
    requires SealRecord(ws, usePrevious, typ, payload, maxOut).1.Sealed?
    requires var key := Key(ws, usePrevious).aead; key.isNull || key.Ideal()
    ensures var version, wireSeq := ws.current.aead.recordVersion, WireSeq(ws, usePrevious);
            && SealRecord(ws, usePrevious, typ, payload, maxOut).1 == Sealed(RecordBytes(typ, version, wireSeq, ct))
            && |ct| < 0x1_0000 && |ct| <= |payload| + Key(ws, usePrevious).aead.MaxOverhead()
            && Key(ws, usePrevious).aead.Open(typ, version, wireSeq, ct) == Some(payload)
  {
    var key, version, wireSeq := Key(ws, usePrevious).aead, ws.current.aead.recordVersion, WireSeq(ws, usePrevious);
    var entropy := Draw(ws.entropy, ws.drawn, key.layout.variableLen);
    ct := key.Seal(typ, version, wireSeq, payload, entropy, maxOut - RT_HEADER_LENGTH).value;
    key.OpenOfSeal(typ, version, wireSeq, payload, entropy, maxOut - RT_HEADER_LENGTH);
    key.SealLength(typ, version, wireSeq, payload, entropy, maxOut - RT_HEADER_LENGTH);
    assert !key.isNull ==> key.tagLen(|payload|) <= key.maxOverhead;
  }

  /** What parses is a written record and what follows it. */
  lemma RecordOfParse(input: seq<byte>)
    requires ParseRecord(input).Some?
    ensures var raw := ParseRecord(input).value;
            && raw.version < 0x1_0000 && |raw.body| <= MAX_ENCRYPTED_LENGTH
            && input == RecordBytes(raw.typ, raw.version, raw.wireSeq, raw.body) + input[RT_HEADER_LENGTH + |raw.body|..]
  {
    var raw := ParseRecord(input).value;
    assert Pow256(2) == 0x1_0000;
    BeOfFromBe(input[1..3]);
    BeOfFromBe(input[11..13]);
    assert |raw.body| == FromBe(input[11..13]);
    assert input[..13] == [input[0]] + input[1..3] + input[3..11] + input[11..13];
    assert input == input[..13] + raw.body + input[13 + |raw.body|..];
  }

  /**
   With a cipher that opens only what was sealed, a record is accepted only if it stands at the front of the
   datagram exactly as one of the calls of Seal made it: its type, version, epoch and number, and what it
   opens to, are those of that call, its number is neither accepted before nor too old.
   */
  lemma AcceptedWasSealed(rs: ReadState, input: seq<byte>, calls: set<SealCall>) returns (c: SealCall)
    requires ReadInv(rs) && !rs.aead.isNull && (rs.aead.layout.omitAd ==> !rs.aead.layout.inRecord)
    requires (forall d | d in calls :: rs.aead.Callable(d)) && rs.aead.OpensOnly(calls)
    requires Accepts(OpenRecord(rs, input).1)
    ensures c in calls && FromBe(c.seqNum[..2]) == rs.epoch && !ShouldDiscard(rs.window, FromBe(c.seqNum))
    ensures ParseRecord(input).Some? && ParseRecord(input).value.version == rs.aead.recordVersion
    ensures !rs.aead.layout.omitAd ==> c.typ == input[0] && (rs.aead.layout.omitVersionInAd || c.version == rs.aead.recordVersion)
    ensures rs.aead.SealedBy(c).Some? && RecordBytes(input[0], rs.aead.recordVersion, c.seqNum, rs.aead.SealedBy(c).value) <= input
    ensures match OpenRecord(rs, input).1
            case Opened(typ, plaintext, _) => typ == input[0] && typ != RT_ALERT && plaintext == c.plaintext
            case AlertRecord(alert, _) => input[0] == RT_ALERT && alert == c.plaintext
            case _ => true
  {
    hide ShouldDiscard, Record, ParseRecord, RecordBytes;
    var raw := ParseRecord(input).value;
    RecordOfParse(input);
    FirstOctet(raw.typ, raw.version, raw.wireSeq, raw.body, input[RT_HEADER_LENGTH + |raw.body|..]);
    c := rs.aead.OpensOnlySealed(calls, raw.typ, raw.version, raw.wireSeq, raw.body);
  }

  function Consumed(result: OpenRecordResult): nat {
    match result
    case CloseNotify => 0
    case NeedMore => 0
    case Dropped(n) => n
    case RecordOverflow(n) => n
    case AlertRecord(_, n) => n
    case Opened(_, _, n) => n
  }

  /**
   A record of a fitting version is taken off the front of its datagram, whatever becomes of it, and what
   becomes of it does not depend on the records behind it: one that is forged, replayed or of another epoch
   does not take the rest of the datagram with it.
   */
  lemma TakesOneRecord(rs: ReadState, typ: byte, version: nat, wireSeq: seq<byte>, ct: seq<byte>, rest: seq<byte>)
    requires (!rs.aead.isNull ==> rs.aead.layout.Valid()) && !rs.closed && VersionOk(rs, version)
    requires |wireSeq| == 8 && version < 0x1_0000 && |ct| <= MAX_ENCRYPTED_LENGTH
    ensures Consumed(OpenRecord(rs, RecordBytes(typ, version, wireSeq, ct) + rest).1)
            == |RecordBytes(typ, version, wireSeq, ct)|
    ensures OpenRecord(rs, RecordBytes(typ, version, wireSeq, ct) + rest)
            == OpenRecord(rs, RecordBytes(typ, version, wireSeq, ct))
  {
    hide ParseRecord, ShouldDiscard, Record;
    ParseOfRecordBytes(typ, version, wireSeq, ct, rest);
    ParseOfRecordBytes(typ, version, wireSeq, ct, []);
    var record := RecordBytes(typ, version, wireSeq, ct);
    assert record + [] == record;
  }

  /** A record that was cut short takes what there is of it; one of another version takes the whole datagram. */
  lemma UnfitTakesAll(rs: ReadState, typ: byte, version: nat, wireSeq: seq<byte>, ct: seq<byte>, rest: seq<byte>,
                      cut: nat)
    requires (!rs.aead.isNull ==> rs.aead.layout.Valid()) && !rs.closed
    requires |wireSeq| == 8 && version < 0x1_0000 && |ct| <= MAX_ENCRYPTED_LENGTH
    requires 0 < cut < |RecordBytes(typ, version, wireSeq, ct)|
    ensures OpenRecord(rs, RecordBytes(typ, version, wireSeq, ct)[..cut]) == (rs, Dropped(cut))
    ensures !VersionOk(rs, version) ==>
              var d := RecordBytes(typ, version, wireSeq, ct) + rest; OpenRecord(rs, d) == (rs, Dropped(|d|))
  {
    hide ShouldDiscard, Record;
    var record := RecordBytes(typ, version, wireSeq, ct);
    ParseOfRecordBytes(typ, version, wireSeq, ct, rest);
    if cut >= RT_HEADER_LENGTH {
      assert record[..cut][11..13] == record[11..13] == Be(|ct|, 2);
      assert Pow256(2) == 0x1_0000;
      FromBeOfBe(|ct|, 2);
    }
  }

  /** A call of Seal made the record at the front of the datagram. */
  ghost predicate Fronts(rs: ReadState, input: seq<byte>, c: SealCall)
    requires !rs.aead.isNull && rs.aead.layout.Valid() && rs.aead.Callable(c) && input != []
  {
    && rs.aead.SealedBy(c).Some?
    && RecordBytes(input[0], rs.aead.recordVersion, c.seqNum, rs.aead.SealedBy(c).value) <= input
  }

  /** The datagram's first record is of the right version and opens. */
  predicate Authentic(rs: ReadState, input: seq<byte>)
    requires !rs.aead.isNull && rs.aead.layout.Valid()
  {
    match ParseRecord(input)
    case None => false
    case Some(raw) =>
      raw.version == rs.aead.recordVersion && rs.aead.Open(raw.typ, raw.version, raw.wireSeq, raw.body).Some?
  }

  lemma AuthenticIsFront(rs: ReadState, input: seq<byte>, calls: set<SealCall>) returns (c: SealCall)
    requires !rs.aead.isNull && rs.aead.layout.Valid() && (rs.aead.layout.omitAd ==> !rs.aead.layout.inRecord)
    requires (forall d | d in calls :: rs.aead.Callable(d)) && rs.aead.OpensOnly(calls)
    requires input != [] && Authentic(rs, input)
    ensures c in calls && Fronts(rs, input, c)
  {
    hide ParseRecord, RecordBytes;
    var raw := ParseRecord(input).value;
    RecordOfParse(input);
    FirstOctet(raw.typ, raw.version, raw.wireSeq, raw.body, input[RT_HEADER_LENGTH + |raw.body|..]);
    c := rs.aead.OpensOnlySealed(calls, raw.typ, raw.version, raw.wireSeq, raw.body);
  }

  /**
   With a cipher that opens only what was sealed, a datagram whose front no call of Seal made changes nothing,
   not even the replay window, and is no error: something is dropped, and at least one octet of it.
   */
  lemma ForgedIsDropped(rs: ReadState, input: seq<byte>, calls: set<SealCall>)
    requires ReadInv(rs) && !rs.aead.isNull && (rs.aead.layout.omitAd ==> !rs.aead.layout.inRecord)
    requires (forall d | d in calls :: rs.aead.Callable(d)) && rs.aead.OpensOnly(calls)
    requires !rs.closed && input != [] && forall c | c in calls :: !Fronts(rs, input, c)
    ensures OpenRecord(rs, input).0 == rs
    ensures OpenRecord(rs, input).1.Dropped? && 0 < OpenRecord(rs, input).1.consumed <= |input|
  {
    hide ShouldDiscard, Record, ParseRecord, RecordBytes, Fronts;
    if Authentic(rs, input) { var c := AuthenticIsFront(rs, input, calls); }
  }

  lemma FirstOctet(typ: byte, version: nat, wireSeq: seq<byte>, ct: seq<byte>, rest: seq<byte>)
    requires |wireSeq| == 8
    ensures (RecordBytes(typ, version, wireSeq, ct) + rest)[0] == typ
  {
  }

  /** Without a cipher, a record is accepted if its version is of DTLS, its number fresh and it is not too long. */
  lemma AcceptedInClear(rs: ReadState, input: seq<byte>)
    requires ReadInv(rs) && rs.aead.isNull && !rs.closed && input != []
    ensures Accepts(OpenRecord(rs, input).1) <==>
              && ParseRecord(input).Some?
              && var raw := ParseRecord(input).value;
                 && raw.version / 256 == 0xfe && FromBe(raw.wireSeq[..2]) == rs.epoch
                 && !ShouldDiscard(rs.window, FromBe(raw.wireSeq)) && |raw.body| <= 16384
  {
  }
}
