/**
 `LatestReadConsumer` of frontend/src/api.ts. A drain is a coroutine that is either waiting for
 the work it started or has yielded once to the microtask queue; everything between two such
 points is one step. Producers, discards, completions and rejections interleave freely.
 */
module LatestRead {
  import opened Options

  /** Work `run` and the waiters that will share its outcome; call number n enqueues work n and waits as n. */
  datatype Batch = Batch(run: nat, waiters: seq<nat>)

  datatype Drain = Working(batch: Batch) | Yielded

  datatype Outcome = Discarded | Fulfilled(work: nat) | Rejected(work: nat)

  datatype Settlement = Settlement(waiter: nat, outcome: Outcome)

  datatype State = State(
    running: bool,
    pending: Option<Batch>,
    drains: seq<Drain>,         // every live drain
    issued: nat,                // calls of enqueue so far
    settled: seq<Settlement>,   // promises settled so far, in order
    redrains: nat)              // times the finally block started another drain

  const Idle := State(false, None, [], 0, [], 0)

  datatype Label = Enqueue | Discard | Finish(drain: nat, fulfilled: bool) | Resume(drain: nat)

  function Settle(waiters: seq<nat>, outcome: Outcome): seq<Settlement> {
    seq(|waiters|, i requires 0 <= i < |waiters| => Settlement(waiters[i], outcome))
  }

  /** The head of the drain loop: take the pending work, or yield once. */
  function LoopHead(s: State, d: nat): State
    requires d < |s.drains|
  {
    if s.pending.None? then s.(drains := s.drains[d := Yielded])
    else s.(drains := s.drains[d := Working(s.pending.value)], pending := None)
  }

  function StartDrain(s: State): State {
    LoopHead(s.(drains := s.drains + [Yielded]), |s.drains|)
  }

  function Enqueued(s: State): State {
    var batch := if s.pending.None? then Batch(s.issued, [s.issued])
                 else Batch(s.issued, s.pending.value.waiters + [s.issued]);
    var next := s.(pending := Some(batch), issued := s.issued + 1);
    if s.running then next else StartDrain(next.(running := true))
  }

  function DiscardedAll(s: State): State {
    if s.pending.None? then s
    else s.(settled := s.settled + Settle(s.pending.value.waiters, Discarded), pending := None)
  }

  function Finished(s: State, d: nat, fulfilled: bool): State
    requires d < |s.drains| && s.drains[d].Working?
  {
    var batch := s.drains[d].batch;
    var outcome := if fulfilled then Fulfilled(batch.run) else Rejected(batch.run);
    LoopHead(s.(settled := s.settled + Settle(batch.waiters, outcome)), d)
  }

  /** The finally block, which hands recorded work to a new drain if there is any. */
  function Closed(s: State, d: nat): State
    requires d < |s.drains|
  {
    var done := s.(running := false, drains := s.drains[..d] + s.drains[d + 1..]);
    if done.pending.None? then done else StartDrain(done.(running := true, redrains := s.redrains + 1))
  }

  function Resumed(s: State, d: nat): State
    requires d < |s.drains| && s.drains[d].Yielded?
  {
    if s.pending.None? then Closed(s, d) else LoopHead(s, d)
  }

  predicate Enabled(s: State, l: Label) {
    match l
    case Enqueue => true
    case Discard => true
    case Finish(d, _) => d < |s.drains| && s.drains[d].Working?
    case Resume(d) => d < |s.drains| && s.drains[d].Yielded?
  }

  function Apply(s: State, l: Label): State
    requires Enabled(s, l)
  {
    match l
    case Enqueue => Enqueued(s)
    case Discard => DiscardedAll(s)
    case Finish(d, fulfilled) => Finished(s, d, fulfilled)
    case Resume(d) => Resumed(s, d)
  }

  ghost predicate IsRun(states: seq<State>, labels: seq<Label>) {
    && |states| == |labels| + 1 && states[0] == Idle
    && forall i | 0 <= i < |labels| :: Enabled(states[i], labels[i]) && states[i + 1] == Apply(states[i], labels[i])
  }

  // ---- the invariant -------------------------------------------------------------------------

  function WaitersOf(settled: seq<Settlement>): seq<nat> {
    seq(|settled|, i requires 0 <= i < |settled| => settled[i].waiter)
  }

  function InWork(s: State): seq<nat> {
    if |s.drains| == 1 && s.drains[0].Working? then s.drains[0].batch.waiters else []
  }

  function InPending(s: State): seq<nat> {
    if s.pending.Some? then s.pending.value.waiters else []
  }

  /** The numbers below n, once each. */
  function UpTo(n: nat): multiset<nat> {
    if n == 0 then multiset{} else UpTo(n - 1) + multiset{n - 1}
  }

  /** Work serves no waiter that came after it. */
  predicate Serves(batch: Batch, issued: nat) {
    batch.run < issued && forall i | 0 <= i < |batch.waiters| :: batch.waiters[i] <= batch.run
  }

  /** One drain at most, and everything in it or pending has an owner. */
  ghost predicate Shape(s: State) {
    && (s.running <==> |s.drains| == 1) && |s.drains| <= 1
    && (s.pending.Some? ==> s.running && s.pending.value.run == s.issued - 1 && Serves(s.pending.value, s.issued))
    && (|s.drains| == 1 && s.drains[0].Working? ==> Serves(s.drains[0].batch, s.issued))
    && s.redrains == 0
    && (forall i | 0 <= i < |s.settled| ::
          s.settled[i].outcome.Discarded? || s.settled[i].waiter <= s.settled[i].outcome.work < s.issued)
  }

  /** Every issued promise is settled, in work or pending, and in only one of these places. */
  ghost predicate Ledger(s: State) {
    multiset(WaitersOf(s.settled)) + multiset(InWork(s)) + multiset(InPending(s)) == UpTo(s.issued)
  }

  ghost predicate Inv(s: State) {
    Shape(s) && Ledger(s)
  }

  lemma SettleAdds(settled: seq<Settlement>, waiters: seq<nat>, outcome: Outcome)
    ensures multiset(WaitersOf(settled + Settle(waiters, outcome))) == multiset(WaitersOf(settled)) + multiset(waiters)
  {
    assert WaitersOf(settled + Settle(waiters, outcome)) == WaitersOf(settled) + waiters;
  }

  lemma StepKeepsShape(s: State, l: Label)
    requires Shape(s) && Enabled(s, l)
    ensures Shape(Apply(s, l))
  {
    match l
    case Enqueue =>
    case Discard =>
    case Finish(_, _) =>
    case Resume(_) =>
  }

  /** One more promise is pending, or in work because nothing else is. */
  ghost predicate PlacedOneMore(s: State, s': State) {
    var places := InPending(s) + [s.issued];
    && s'.settled == s.settled && s'.issued == s.issued + 1
    && if s.running then InPending(s') == places && InWork(s') == InWork(s)
       else InWork(s') == places && InPending(s') == [] && InWork(s) == []
  }

  lemma EnqueuePlaces(s: State)
    requires Inv(s)
    ensures PlacedOneMore(s, Enqueued(s))
  {
  }

  lemma PlacedKeepsLedger(s: State, s': State)
    requires Ledger(s) && PlacedOneMore(s, s')
    ensures Ledger(s')
  {
    var places := InPending(s) + [s.issued];
    assert multiset(places) == multiset(InPending(s)) + multiset{s.issued};
    assert UpTo(s'.issued) == UpTo(s.issued) + multiset{s.issued};
    if s.running {
      assert multiset(InPending(s')) == multiset(places);
    } else {
      assert multiset(InWork(s')) == multiset(places);
    }
  }

  lemma EnqueueKeepsLedger(s: State)
    requires Inv(s)
    ensures Ledger(Enqueued(s))
  {
    EnqueuePlaces(s);
    PlacedKeepsLedger(s, Enqueued(s));
  }

  lemma DiscardKeepsLedger(s: State)
    requires Inv(s)
    ensures Ledger(DiscardedAll(s))
  {
    SettleAdds(s.settled, InPending(s), Discarded);
    var s' := DiscardedAll(s);
    assert InWork(s') == InWork(s) && InPending(s') == [];
  }

  lemma FinishKeepsLedger(s: State, fulfilled: bool)
    requires Inv(s) && |s.drains| == 1 && s.drains[0].Working?
    ensures Ledger(Finished(s, 0, fulfilled))
  {
    var batch := s.drains[0].batch;
    SettleAdds(s.settled, batch.waiters, if fulfilled then Fulfilled(batch.run) else Rejected(batch.run));
    var s' := Finished(s, 0, fulfilled);
    assert InWork(s') == InPending(s) && InPending(s') == [];
  }

  lemma ResumeKeepsLedger(s: State)
    requires Inv(s) && |s.drains| == 1 && s.drains[0].Yielded?
    ensures Ledger(Resumed(s, 0))
  {
    var s' := Resumed(s, 0);
    assert InWork(s) == [] && InPending(s') == [] && InWork(s') == InPending(s);
  }

  lemma StepKeepsInv(s: State, l: Label)
    requires Inv(s) && Enabled(s, l)
    ensures Inv(Apply(s, l))
  {
    StepKeepsShape(s, l);
    match l
    case Enqueue =>
      EnqueueKeepsLedger(s);
    case Discard =>
      DiscardKeepsLedger(s);
    case Finish(_, fulfilled) =>
      FinishKeepsLedger(s, fulfilled);
    case Resume(_) =>
      ResumeKeepsLedger(s);
  }

  lemma {:induction false} RunKeepsInv(states: seq<State>, labels: seq<Label>, i: nat)
    requires IsRun(states, labels) && i < |states|
    ensures Inv(states[i])
  {
    if i > 0 {
      RunKeepsInv(states, labels, i - 1);
      StepKeepsInv(states[i - 1], labels[i - 1]);
    }
  }

  // ---- what it means ----------------------------------------------------------------------------

  lemma {:induction false} UpToCounts(n: nat, w: nat)
    ensures UpTo(n)[w] == if w < n then 1 else 0
  {
    if n > 0 {
      UpToCounts(n - 1, w);
    }
  }

  /** At most one work runs; pending work has exactly one live drain; no drain is ever restarted. */
  lemma OneConsumer(states: seq<State>, labels: seq<Label>, i: nat)
    requires IsRun(states, labels) && i < |states|
    ensures var s := states[i];
            |s.drains| <= 1 && (s.running <==> |s.drains| == 1) && (s.pending.Some? ==> |s.drains| == 1) && s.redrains == 0
  {
    RunKeepsInv(states, labels, i);
  }

  /** No promise settles twice, only issued ones settle, and when no drain is live all have settled. */
  lemma SettledOnce(states: seq<State>, labels: seq<Label>, i: nat, w: nat)
    requires IsRun(states, labels) && i < |states|
    ensures var s := states[i];
            && multiset(WaitersOf(s.settled))[w] <= (if w < s.issued then 1 else 0)
            && (s.drains == [] && w < s.issued ==> multiset(WaitersOf(s.settled))[w] == 1)
  {
    RunKeepsInv(states, labels, i);
    UpToCounts(states[i].issued, w);
    assert states[i].drains == [] ==> InWork(states[i]) == [] && InPending(states[i]) == [];
  }

  /** A waiter that was not discarded gets the outcome of work enqueued no earlier than its own call. */
  lemma NeverStale(states: seq<State>, labels: seq<Label>, i: nat, k: nat)
    requires IsRun(states, labels) && i < |states| && k < |states[i].settled|
    ensures var e := states[i].settled[k]; !e.outcome.Discarded? ==> e.waiter <= e.outcome.work < states[i].issued
  {
    RunKeepsInv(states, labels, i);
  }

  /** The event that gives a waiter this outcome: its work completes, its work fails, or it is discarded while pending. */
  ghost predicate Settles(s: State, l: Label, e: Settlement) {
    match e.outcome
    case Fulfilled(k) => l.Finish? && l.fulfilled && WorksFor(s, l.drain, k, e.waiter)
    case Rejected(k) => l.Finish? && !l.fulfilled && WorksFor(s, l.drain, k, e.waiter)
    case Discarded => l.Discard? && s.pending.Some? && Waits(s.pending.value, e.waiter)
  }

  ghost predicate WorksFor(s: State, d: nat, k: nat, w: nat) {
    d < |s.drains| && s.drains[d].Working? && s.drains[d].batch.run == k && Waits(s.drains[d].batch, w)
  }

  ghost predicate Waits(batch: Batch, w: nat) {
    exists n | 0 <= n < |batch.waiters| :: batch.waiters[n] == w
  }

  lemma SettledMembers(settled: seq<Settlement>, waiters: seq<nat>, outcome: Outcome, e: Settlement)
    ensures e in settled + Settle(waiters, outcome) <==>
            e in settled || (e.outcome == outcome && exists n | 0 <= n < |waiters| :: waiters[n] == e.waiter)
  {
    var more := Settle(waiters, outcome);
    if n :| 0 <= n < |waiters| && waiters[n] == e.waiter && e.outcome == outcome {
      assert more[n] == e;
    }
  }

  lemma StepSettles(s: State, l: Label, e: Settlement)
    requires Enabled(s, l)
    ensures e in Apply(s, l).settled <==> e in s.settled || Settles(s, l, e)
  {
    match l
    case Enqueue =>
    case Discard =>
      if s.pending.Some? {
        SettledMembers(s.settled, s.pending.value.waiters, Discarded, e);
      }
    case Finish(d, fulfilled) =>
      var batch := s.drains[d].batch;
      SettledMembers(s.settled, batch.waiters, if fulfilled then Fulfilled(batch.run) else Rejected(batch.run), e);
    case Resume(_) =>
  }

  /** A waiter has an outcome exactly when the event that gives this outcome to it has happened. */
  lemma {:induction false} OutcomesAreEarned(states: seq<State>, labels: seq<Label>, i: nat, e: Settlement)
    requires IsRun(states, labels) && i < |states|
    ensures e in states[i].settled <==> exists j | 0 <= j < i :: Settles(states[j], labels[j], e)
  {
    if i > 0 {
      OutcomesAreEarned(states, labels, i - 1, e);
      StepSettles(states[i - 1], labels[i - 1], e);
    }
  }

  /** Whenever work starts, it is the one enqueued last. */
  lemma StartsLatest(states: seq<State>, labels: seq<Label>, i: nat)
    requires IsRun(states, labels) && i < |labels|
    requires states[i].pending.Some? && states[i + 1].pending.None? && !labels[i].Discard?
    ensures states[i + 1].drains == [Working(states[i].pending.value)] && states[i].pending.value.run + 1 == states[i].issued
  {
    RunKeepsInv(states, labels, i);
  }

  // ---- the object ---------------------------------------------------------------------------------

  /** The consumer in imperative form; `drains` and `settled` are the runtime's coroutines and promises. */
  class LatestReadConsumer {
    var running: bool
    var pending: Option<Batch>
    var drains: seq<Drain>
    var issued: nat
    var settled: seq<Settlement>
    var redrains: nat

    constructor ()
      ensures View() == Idle
    {
      running, pending, drains, issued, settled, redrains := false, None, [], 0, [], 0;
    }

    function View(): State
      reads this
    {
      State(running, pending, drains, issued, settled, redrains)
    }

    method Enqueue() returns (promise: nat)
      modifies this
      ensures View() == Enqueued(old(View())) && promise == old(issued)
    {
      promise := issued;
      if pending.None? {
        pending := Some(Batch(promise, [promise]));
      } else {
        pending := Some(Batch(promise, pending.value.waiters + [promise]));
      }
      issued := issued + 1;
      if !running {
        running := true;
        SpawnDrain();
      }
    }

    method DiscardPending()
      modifies this
      ensures View() == DiscardedAll(old(View()))
    {
      if pending.Some? {
        SettleAll(pending.value.waiters, Discarded);
      }
      pending := None;
    }

    method SettleAll(waiters: seq<nat>, outcome: Outcome)
      modifies this`settled
      ensures settled == old(settled) + Settle(waiters, outcome)
    {
      var i := 0;
      while i < |waiters|
        invariant 0 <= i <= |waiters| && settled == old(settled) + Settle(waiters[..i], outcome)
      {
        settled := settled + [Settlement(waiters[i], outcome)];
        assert Settle(waiters[..i + 1], outcome) == Settle(waiters[..i], outcome) + [Settlement(waiters[i], outcome)];
        i := i + 1;
      }
      assert waiters[..i] == waiters;
    }

    method SpawnDrain()
      modifies this`pending, this`drains
      ensures View() == StartDrain(old(View()))
    {
      drains := drains + [Yielded];
      Loop(|drains| - 1);
    }

    method Loop(d: nat)
      requires d < |drains|
      modifies this`pending, this`drains
      ensures View() == LoopHead(old(View()), d)
    {
      if pending.None? {
        drains := drains[d := Yielded];
      } else {
        drains := drains[d := Working(pending.value)];
        pending := None;
      }
    }

    method FinishWork(d: nat, fulfilled: bool)
      requires d < |drains| && drains[d].Working?
      modifies this
      ensures View() == Finished(old(View()), d, fulfilled)
    {
      var batch := drains[d].batch;
      SettleAll(batch.waiters, if fulfilled then Fulfilled(batch.run) else Rejected(batch.run));
      Loop(d);
    }

    method ResumeDrain(d: nat)
      requires d < |drains| && drains[d].Yielded?
      modifies this
      ensures View() == Resumed(old(View()), d)
    {
      if pending.Some? {
        Loop(d);
        return;
      }
      CloseDrain(d);
    }

    /** The finally block. */
    method CloseDrain(d: nat)
      requires d < |drains|
      modifies this
      ensures View() == Closed(old(View()), d)
    {
      running := false;
      drains := drains[..d] + drains[d + 1..];
      if pending.Some? {
        running, redrains := true, redrains + 1;
        SpawnDrain();
      }
    }
  }
}
