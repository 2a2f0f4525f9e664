/**
 Saturating reference counts: the locked version is the specification, the compare-and-swap version
 a state machine in which any number of threads take their steps in any order and a weak CAS may
 fail spuriously.
 */
module Refcount {
  import opened Wrappers

  const MAX: nat := 0xffff_ffff

  // ---- The locked version ---------------------------------------------------------------------

  function Incremented(count: nat): nat {
    if count < MAX then count + 1 else count
  }

  function Decremented(count: nat): nat
    requires count > 0
  {
    if count < MAX then count - 1 else count
  }

  class LockedRefcount {
    var count: nat

    ghost predicate Valid()
      reads this
    {
      count <= MAX
    }

    method Inc()
      requires Valid()
      modifies this
      ensures Valid() && count == Incremented(old(count))
    {
      if count < MAX {
        count := count + 1;
      }
    }

    /** None stands for abort. */
    method DecAndTestZero() returns (zero: Option<bool>)
      requires Valid()
      modifies this
      ensures Valid() && (zero.None? <==> old(count) == 0)
      ensures zero.Some? ==> count == Decremented(old(count)) && zero == Some(count == 0)
    {
      if count == 0 {
        return None;
      }
      if count < MAX {
        count := count - 1;
      }
      return Some(count == 0);
    }
  }

  // ---- The compare-and-swap version -------------------------------------------------------------

  /** Where a thread stands: outside, or in a call's loop with the value it expects. */
  datatype Op = Outside | Inc(expected: nat) | Dec(expected: nat)

  /** A thread and the references it may use; one given up by a drop in progress is no longer held. */
  datatype Thread = Thread(held: nat, op: Op)

  datatype Event = Taken(thread: nat) | Dropped(thread: nat, zero: bool)

  /** log lists the calls that have taken effect, in the order in which they did. */
  datatype World = World(count: nat, threads: seq<Thread>, log: seq<Event>, aborted: bool)

  datatype Step =
    | CallInc(thread: nat)
    | CallDec(thread: nat)
    | Advance(thread: nat, spurious: bool)
    | HandOver(from: nat, to: nat)

  /** A thread calls only with a reference in hand, and only from outside. */
  predicate Enabled(w: World, step: Step) {
    && !w.aborted
    && match step
       case CallInc(t) => t < |w.threads| && w.threads[t].op.Outside? && w.threads[t].held > 0
       case CallDec(t) => t < |w.threads| && w.threads[t].op.Outside? && w.threads[t].held > 0
       case Advance(t, _) => t < |w.threads| && !w.threads[t].op.Outside?
       case HandOver(t, u) =>
         t < |w.threads| && u < |w.threads| && t != u && w.threads[t].op.Outside? && w.threads[t].held > 0
  }

  function SetThread(w: World, t: nat, th: Thread): World
    requires t < |w.threads|
  {
    w.(threads := w.threads[t := th])
  }

  /** One round of a loop: the tests on expected, then the CAS, which reloads expected when it fails. */
  function Round(w: World, t: nat, spurious: bool): World
    requires t < |w.threads| && !w.threads[t].op.Outside?
  {
    var th := w.threads[t];
    match th.op
    case Inc(expected) =>
      if expected == MAX then
        SetThread(w.(log := w.log + [Taken(t)]), t, Thread(th.held + 1, Outside))
      else if !spurious && w.count == expected then
        SetThread(w.(count := expected + 1, log := w.log + [Taken(t)]), t, Thread(th.held + 1, Outside))
      else SetThread(w, t, th.(op := Inc(w.count)))
    case Dec(expected) =>
      if expected == 0 then w.(aborted := true)
      else if expected == MAX then
        SetThread(w.(log := w.log + [Dropped(t, false)]), t, th.(op := Outside))
      else if !spurious && w.count == expected then
        SetThread(w.(count := expected - 1, log := w.log + [Dropped(t, expected - 1 == 0)]), t, th.(op := Outside))
      else SetThread(w, t, th.(op := Dec(w.count)))
  }

  function Next(w: World, step: Step): World
    requires Enabled(w, step)
  {
    match step
    case CallInc(t) => SetThread(w, t, w.threads[t].(op := Inc(w.count)))
    case CallDec(t) => SetThread(w, t, Thread(w.threads[t].held - 1, Dec(w.count)))
    case Advance(t, spurious) => Round(w, t, spurious)
    case HandOver(t, u) =>
      var w' := SetThread(w, t, w.threads[t].(held := w.threads[t].held - 1));
      SetThread(w', u, w'.threads[u].(held := w'.threads[u].held + 1))
  }

  /** A run starts with as many references as the count says, at least one, and nobody inside a call. */
  predicate IsRun(run: seq<World>, steps: seq<Step>) {
    && |run| == |steps| + 1
    && 1 <= run[0].count < MAX && run[0].log == [] && !run[0].aborted
    && (forall t | 0 <= t < |run[0].threads| :: run[0].threads[t].op.Outside?)
    && Outstanding(run[0].threads) == run[0].count
    && forall i | 0 <= i < |steps| :: Enabled(run[i], steps[i]) && run[i + 1] == Next(run[i], steps[i])
  }

  // ---- Linearization ----------------------------------------------------------------------------

  /** Replaying the calls on the locked version; None if it would abort or answer differently. */
  function Replay(count: nat, log: seq<Event>): Option<nat> {
    if log == [] then Some(count)
    else
      match Replay(count, log[..|log| - 1])
      case None => None
      case Some(c) =>
        match log[|log| - 1]
        case Taken(_) => Some(Incremented(c))
        case Dropped(_, zero) =>
          if c == 0 || zero != (Decremented(c) == 0) then None else Some(Decremented(c))
  }

  lemma ReplayAppend(count: nat, log: seq<Event>, e: Event)
    requires Replay(count, log).Some?
    ensures Replay(count, log + [e]) ==
              match e
              case Taken(_) => Some(Incremented(Replay(count, log).value))
              case Dropped(_, zero) =>
                var c := Replay(count, log).value;
                if c == 0 || zero != (Decremented(c) == 0) then None else Some(Decremented(c))
  {
    assert (log + [e])[..|log|] == log;
  }

  // ---- Conservation -----------------------------------------------------------------------------

  /** References a thread accounts for, the one a drop in progress still owns included. */
  function Weight(th: Thread): nat {
    th.held + if th.op.Dec? then 1 else 0
  }

  function Outstanding(threads: seq<Thread>): nat {
    if threads == [] then 0 else Outstanding(threads[..|threads| - 1]) + Weight(threads[|threads| - 1])
  }

  lemma {:induction false} OutstandingSet(threads: seq<Thread>, t: nat, th: Thread)
    requires t < |threads|
    ensures Outstanding(threads[t := th]) == Outstanding(threads) - Weight(threads[t]) + Weight(th)
    ensures Weight(threads[t]) <= Outstanding(threads)
    decreases |threads|
  {
    var init := threads[..|threads| - 1];
    if t < |threads| - 1 {
      OutstandingSet(init, t, th);
      assert threads[t := th][..|threads| - 1] == init[t := th];
    } else {
      assert threads[t := th][..|threads| - 1] == init;
    }
  }

  /** How many drops reported the last reference. */
  function Zeros(log: seq<Event>): nat {
    if log == [] then 0
    else Zeros(log[..|log| - 1]) + (if log[|log| - 1].Dropped? && log[|log| - 1].zero then 1 else 0)
  }

  lemma ZerosAppend(log: seq<Event>, e: Event)
    ensures Zeros(log + [e]) == Zeros(log) + if e.Dropped? && e.zero then 1 else 0
  {
    assert (log + [e])[..|log|] == log;
  }

  // ---- The invariant ----------------------------------------------------------------------------

  /** What a thread expects was once the count; MAX, once seen, still is. */
  predicate ThreadOk(count: nat, op: Op) {
    match op
    case Outside => true
    case Inc(expected) => expected <= MAX && (expected == MAX ==> count == MAX)
    case Dec(expected) => 1 <= expected <= MAX && (expected == MAX ==> count == MAX)
  }

  predicate Inv(start: nat, w: World) {
    && w.count <= MAX && !w.aborted
    && Replay(start, w.log) == Some(w.count)
    && (w.count == MAX || w.count == Outstanding(w.threads))
    && Zeros(w.log) == (if w.count == 0 then 1 else 0)
    && forall t | 0 <= t < |w.threads| :: ThreadOk(w.count, w.threads[t].op) && InHand(w.threads[t])
  }

  /** A thread inside a call still has a reference of its own: the one it copies or the one it drops. */
  predicate InHand(th: Thread) {
    !th.op.Outside? ==> Weight(th) > 0
  }

  /** A thread inside a call accounts for a reference, so the count cannot be zero. */
  lemma CountPositive(start: nat, w: World, t: nat)
    requires Inv(start, w) && t < |w.threads| && Weight(w.threads[t]) > 0
    ensures w.count > 0
  {
    OutstandingSet(w.threads, t, w.threads[t]);
  }

  /** Replacing one thread, with the count, log and outstanding references that go with it. */
  lemma Replaced(start: nat, w: World, t: nat, th: Thread, count: nat, log: seq<Event>)
    requires Inv(start, w) && t < |w.threads| && ThreadOk(count, th.op) && InHand(th)
    requires count <= MAX && (w.count == MAX ==> count == MAX)
    requires Replay(start, log) == Some(count) && Zeros(log) == (if count == 0 then 1 else 0)
    requires count == MAX || count == w.count - Weight(w.threads[t]) + Weight(th)
    ensures Inv(start, w.(threads := w.threads[t := th], count := count, log := log))
  {
    OutstandingSet(w.threads, t, th);
  }

  lemma InvParts(start: nat, w: World, t: nat)
    requires Inv(start, w) && t < |w.threads|
    ensures w.count <= MAX && Replay(start, w.log) == Some(w.count)
    ensures ThreadOk(w.count, w.threads[t].op) && InHand(w.threads[t])
    ensures Zeros(w.log) == if w.count == 0 then 1 else 0
  {
  }

  lemma RoundKeepsInv(start: nat, w: World, t: nat, spurious: bool)
    requires Inv(start, w) && t < |w.threads| && !w.threads[t].op.Outside?
    ensures Inv(start, Round(w, t, spurious))
  {
    hide Replay;
    hide Zeros;
    hide Inv;
    InvParts(start, w, t);
    var w' := Round(w, t, spurious);
    CountPositive(start, w, t);
    if |w'.log| > |w.log| {
      var e := w'.log[|w.log|];
      assert w'.log == w.log + [e];
      ReplayAppend(start, w.log, e);
      ZerosAppend(w.log, e);
    }
    Replaced(start, w, t, w'.threads[t], w'.count, w'.log);
  }

  lemma NextKeepsInv(start: nat, w: World, step: Step)
    requires Inv(start, w) && Enabled(w, step)
    ensures Inv(start, Next(w, step))
  {
    match step
    case Advance(t, spurious) => RoundKeepsInv(start, w, t, spurious);
    case CallInc(t) =>
      CountPositive(start, w, t);
      Replaced(start, w, t, w.threads[t].(op := Inc(w.count)), w.count, w.log);
    case CallDec(t) =>
      CountPositive(start, w, t);
      Replaced(start, w, t, Thread(w.threads[t].held - 1, Dec(w.count)), w.count, w.log);
    case HandOver(t, u) =>
      OutstandingSet(w.threads, t, w.threads[t].(held := w.threads[t].held - 1));
      var threads := w.threads[t := w.threads[t].(held := w.threads[t].held - 1)];
      OutstandingSet(threads, u, threads[u].(held := threads[u].held + 1));
  }

  lemma {:induction false} RunKeepsInv(run: seq<World>, steps: seq<Step>, n: nat)
    requires IsRun(run, steps) && n <= |steps|
    ensures Inv(run[0].count, run[n])
  {
    if n > 0 {
      RunKeepsInv(run, steps, n - 1);
      hide Inv;
      NextKeepsInv(run[0].count, run[n - 1], steps[n - 1]);
    }
  }

  // ---- The theorems -----------------------------------------------------------------------------

  /**
   Under every interleaving, spurious failures included, the calls that have taken effect are a run
   of the locked version with the same answers and the same count, and nobody ever aborts.
   */
  lemma Linearizes(run: seq<World>, steps: seq<Step>, n: nat)
    requires IsRun(run, steps) && n <= |steps|
    ensures Replay(run[0].count, run[n].log) == Some(run[n].count) && !run[n].aborted
  {
    RunKeepsInv(run, steps, n);
  }

  /** A call takes effect exactly once, in the step in which it returns. */
  lemma EffectOnReturn(w: World, step: Step)
    requires Enabled(w, step)
    ensures var w' := Next(w, step);
            && w.log <= w'.log && |w'.log| <= |w.log| + 1
            && (|w'.log| == |w.log| + 1 <==> step.Advance? && w'.threads[step.thread].op.Outside?)
            && (|w'.log| == |w.log| + 1 ==>
                  var e := w'.log[|w.log|];
                  e.thread == step.thread && (e.Taken? <==> w.threads[step.thread].op.Inc?))
  {
  }

  /**
   Unless it has saturated, the count is the number of references outstanding; and exactly one drop
   has reported the last reference if there are none left, otherwise none has.
   */
  lemma Conserved(run: seq<World>, steps: seq<Step>, n: nat)
    requires IsRun(run, steps) && n <= |steps|
    ensures run[n].count != MAX ==> run[n].count == Outstanding(run[n].threads)
    ensures Zeros(run[n].log) == if run[n].count == 0 then 1 else 0
  {
    RunKeepsInv(run, steps, n);
  }

  /** Once the last reference has been dropped nothing more can happen to the count. */
  lemma NothingAfterZero(run: seq<World>, steps: seq<Step>, n: nat, step: Step)
    requires IsRun(run, steps) && n <= |steps| && run[n].count == 0
    ensures !Enabled(run[n], step)
  {
    RunKeepsInv(run, steps, n);
    var w := run[n];
    var t := if step.HandOver? then step.from else step.thread;
    if t < |w.threads| { OutstandingSet(w.threads, t, w.threads[t]); }
  }

  /** Once saturated, always saturated, and from then on no drop reports the last reference. */
  lemma {:induction false} SaturatedForever(run: seq<World>, steps: seq<Step>, m: nat, n: nat)
    requires IsRun(run, steps) && m <= n <= |steps| && run[m].count == MAX
    ensures run[n].count == MAX && Zeros(run[n].log) == 0
    decreases n
  {
    RunKeepsInv(run, steps, n);
    if m < n {
      SaturatedForever(run, steps, m, n - 1);
      RunKeepsInv(run, steps, n - 1);
      StaysSaturated(run[0].count, run[n - 1], steps[n - 1]);
    }
  }

  lemma StaysSaturated(start: nat, w: World, step: Step)
    requires Inv(start, w) && Enabled(w, step) && w.count == MAX
    ensures Next(w, step).count == MAX
  {
    hide Replay;
    hide Zeros;
    hide Outstanding;
  }
}
