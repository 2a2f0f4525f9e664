/**
 The receiver's two signals over whole runs, hostile records included: a ChangeCipherSpec that was granted, and
 a flight of one's own that was answered.
 */
module DtlsSignals {
  import opened Bytes
  import opened DtlsFragment
  import opened DtlsReceiver

  /** Handshake records touch neither. */
  lemma {:induction false} FragmentsKeepSignals(st: RecvState, record: seq<byte>)
    requires RingInv(st)
    ensures var st' := ReceiveFragments(st, record).0; st'.(ring := st.ring) == st
    decreases |record|
  {
    hide ReceiveFragment;
    if record != [] && ParseFragment(record).Some? {
      var p := ParseFragment(record).value;
      ReceiveFragmentKeepsRing(st, p.hdr, p.body);
      FragmentKeepsFlag(st, p.hdr, p.body);
      var (st', err) := ReceiveFragment(st, p.hdr, p.body);
      if err.None? { FragmentsKeepSignals(st', p.rest); }
    }
  }

  predicate IsCcs(st: RecvState, typ: byte, record: seq<byte>) {
    typ == RT_CHANGE_CIPHER_SPEC && st.nullCipher && record == [MT_CCS]
  }

  lemma OpenKeepsSignals(st: RecvState, typ: byte, record: seq<byte>)
    requires RingInv(st)
    ensures var st' := OpenHandshake(st, typ, record).0;
            st'.(ring := st.ring) == st.(hasCcs := st.hasCcs || IsCcs(st, typ, record))
  {
    hide ReceiveFragments;
    if typ == RT_HANDSHAKE { FragmentsKeepSignals(st, record); } else { OtherRecords(st, typ, record); }
  }

  // ---- ChangeCipherSpec -------------------------------------------------------------------------

  /** A ChangeCipherSpec comes in while none is waiting. */
  predicate Arrives(st: RecvState, step: Step) {
    && (step.OpenRecord? || step.ExpectChangeCipherSpec?)
    && !st.hasCcs && IsCcs(st, step.typ, step.record)
  }

  /** dtls1_open_change_cipher_spec reports one to its caller. */
  ghost predicate Granted(st: RecvState, step: Step)
    requires RingInv(st)
  {
    step.ExpectChangeCipherSpec? && OpenChangeCipherSpec(st, step.typ, step.record).1.Success?
  }

  ghost function Arrivals(run: seq<Run>, steps: seq<Step>, n: nat): nat
    requires n <= |steps| < |run|
  {
    if n == 0 then 0 else Arrivals(run, steps, n - 1) + if Arrives(run[n - 1].st, steps[n - 1]) then 1 else 0
  }

  ghost function Grants(run: seq<Run>, steps: seq<Step>, n: nat): nat
    requires IsRun(run, steps) && n <= |steps|
  {
    if n == 0 then 0 else Grants(run, steps, n - 1) + if Granted(run[n - 1].st, steps[n - 1]) then 1 else 0
  }

  lemma GrantedWhen(st: RecvState, step: Step)
    requires RingInv(st) && step.ExpectChangeCipherSpec?
    ensures Granted(st, step) <==> st.hasCcs || IsCcs(st, step.typ, step.record)
    ensures !OpenChangeCipherSpec(st, step.typ, step.record).0.hasCcs
  {
    hide ReceiveFragments;
    if !st.hasCcs { OpenKeepsSignals(st, step.typ, step.record); }
    if step.typ != RT_HANDSHAKE && !st.hasCcs { OtherRecords(st, step.typ, step.record); }
  }

  lemma CcsStep(run: Run, step: Step)
    requires RingInv(run.st)
    ensures var more, less := if Arrives(run.st, step) then 1 else 0, if Granted(run.st, step) then 1 else 0;
            (if RunNext(run, step).st.hasCcs then 1 else 0) == (if run.st.hasCcs then 1 else 0) + more - less
  {
    hide OpenHandshake, Granted, CurrentComplete, OpenChangeCipherSpec, HasUnprocessed;
    match step {
      case OpenRecord(typ, record) => OpenKeepsSignals(run.st, typ, record); NotGranted(run.st, step);
      case ExpectChangeCipherSpec(typ, record) => GrantedWhen(run.st, step);
      case _ => NotGranted(run.st, step);
    }
  }

  lemma NotGranted(st: RecvState, step: Step)
    requires RingInv(st) && !step.ExpectChangeCipherSpec?
    ensures !Granted(st, step)
  {
  }

  /** Over any run: each ChangeCipherSpec that came in while none was waiting is granted once, or still waiting. */
  lemma {:induction false} CcsConserved(run: seq<Run>, steps: seq<Step>, n: nat)
    requires IsRun(run, steps) && n <= |steps|
    ensures Grants(run, steps, n) + (if run[n].st.hasCcs then 1 else 0) == Arrivals(run, steps, n)
  {
    hide Granted, RunNext, Arrives;
    if n > 0 {
      CcsConserved(run, steps, n - 1);
      CcsStep(run[n - 1], steps[n - 1]);
    }
  }

  // ---- The reply --------------------------------------------------------------------------------

  /** A message is taken after the endpoint's own flight was complete; or the sender's side says so itself. */
  ghost predicate NotesReply(run: Run, step: Step)
    requires RingInv(run.st)
  {
    if step.OwnFlight? then step.hasReply
    else step.Take? && CurrentComplete(run.st) && run.st.flightComplete
  }

  ghost predicate ReplyNoted(run: seq<Run>, steps: seq<Step>, n: nat)
    requires IsRun(run, steps) && n <= |steps|
  {
    exists a: nat :: a < n && NotesReply(run[a], steps[a]) && forall b | a < b < n :: !steps[b].OwnFlight?
  }

  lemma ReplyStep(run: Run, step: Step)
    requires RingInv(run.st)
    ensures RunNext(run, step).st.flightHasReply
            <==> NotesReply(run, step) || (run.st.flightHasReply && !step.OwnFlight?)
  {
    hide OpenHandshake, CurrentComplete, HasUnprocessed;
    match step {
      case OpenRecord(typ, record) => OpenKeepsSignals(run.st, typ, record);
      case ExpectChangeCipherSpec(typ, record) => OpenKeepsSignals(run.st, typ, record);
      case _ =>
    }
  }

  /** Over any run: the flight counts as answered if and only if a message was taken since it was complete. */
  lemma {:induction false} ReplyExact(run: seq<Run>, steps: seq<Step>, n: nat)
    requires IsRun(run, steps) && n <= |steps|
    ensures run[n].st.flightHasReply <==> ReplyNoted(run, steps, n)
  {
    hide RunNext, NotesReply;
    if n > 0 {
      ReplyExact(run, steps, n - 1);
      ReplyStep(run[n - 1], steps[n - 1]);
      if ReplyNoted(run, steps, n - 1) && !steps[n - 1].OwnFlight? {
        var a: nat :| a < n - 1 && NotesReply(run[a], steps[a]) && forall b | a < b < n - 1 :: !steps[b].OwnFlight?;
        assert NotesReply(run[a], steps[a]) && forall b | a < b < n :: !steps[b].OwnFlight?;
      }
      assert n - 1 < n && (NotesReply(run[n - 1], steps[n - 1]) ==> ReplyNoted(run, steps, n));
    }
  }
}
