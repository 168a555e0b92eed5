/** The worker pool as a step system: any number of Submit, worker and Shutdown steps
    interleaved, with the channel closed only while no Submit is in progress. */
module Pool {

  /** One Submit call and what becomes of its PendingVersion; its item is known by the
      position of the call. */
  datatype Call =
    | Called
    | Sending
    | Blocked
    | Accepted
    | Rejected
    | RejectedCompleted

  datatype Worker = Waiting | Running(item: nat) | Exited

  datatype Shutdown = Asked | Won | Draining | Drained | TimedOut | AlreadyDown

  datatype State = State(
    capacity: nat,
    queue: seq<nat>,
    calls: seq<Call>,
    workers: seq<Worker>,
    shutdowns: seq<Shutdown>,
    stopped: bool,
    closed: bool,
    cancelled: bool,
    ran: seq<nat>,
    completed: seq<nat>)

  function NewPool(workers: int, queueSize: int): State {
    State(if queueSize < 1 then 1 else queueSize, [], [], seq(if workers < 1 then 1 else workers, _ => Waiting), [],
          false, false, false, [], [])
  }

  datatype Event =
    | Submit
    | Check(call: nat)
    | TrySend(call: nat)
    | SendBlocked(call: nat)
    | GiveUp(call: nat)
    | CompleteRejected(call: nat)
    | Take(worker: nat)
    | Finish(worker: nat)
    | Exit(worker: nat)
    | Ask
    | Swap(shutdown: nat)
    | Close(shutdown: nat)
    | SeeDrained(shutdown: nat)
    | TimeOut(shutdown: nat)

  predicate InProgress(c: Call) {
    c.Sending? || c.Blocked?
  }

  predicate NoneInProgress(s: State) {
    forall i :: 0 <= i < |s.calls| ==> !InProgress(s.calls[i])
  }

  predicate AllExited(s: State) {
    forall w :: 0 <= w < |s.workers| ==> s.workers[w].Exited?
  }

  /** The item is in the channel: its Submit returns true. */
  function Enqueued(s: State, i: nat): State
    requires i < |s.calls|
  {
    s.(calls := s.calls[i := Accepted], queue := s.queue + [i])
  }

  function CallStep(s: State, i: nat, e: Event): State
    requires i < |s.calls|
  {
    match (e, s.calls[i])
    case (Check(_), Called) => s.(calls := s.calls[i := if s.stopped then Rejected else Sending])
    case (TrySend(_), Sending) =>
      if |s.queue| < s.capacity then Enqueued(s, i)
      else s.(calls := s.calls[i := Blocked])
    case (SendBlocked(_), Blocked) =>
      if |s.queue| < s.capacity then Enqueued(s, i) else s
    case (GiveUp(_), Blocked) => if s.cancelled then s.(calls := s.calls[i := Rejected]) else s
    case (CompleteRejected(_), Rejected) => s.(calls := s.calls[i := RejectedCompleted], completed := s.completed + [i])
    case _ => s
  }

  function WorkerStep(s: State, w: nat, e: Event): State
    requires w < |s.workers|
  {
    match (e, s.workers[w])
    case (Take(_), Waiting) =>
      if s.queue == [] then s else s.(workers := s.workers[w := Running(s.queue[0])], queue := s.queue[1..])
    case (Finish(_), Running(item)) =>
      s.(workers := s.workers[w := Waiting], ran := s.ran + [item], completed := s.completed + [item])
    case (Exit(_), Waiting) =>
      if s.queue == [] && s.closed then s.(workers := s.workers[w := Exited]) else s
    case _ => s
  }

  function ShutdownStep(s: State, k: nat, e: Event): State
    requires k < |s.shutdowns|
  {
    match (e, s.shutdowns[k])
    case (Swap(_), Asked) => s.(shutdowns := s.shutdowns[k := if s.stopped then AlreadyDown else Won], stopped := true)
    case (Close(_), Won) =>
      if NoneInProgress(s) then s.(shutdowns := s.shutdowns[k := Draining], closed := true) else s
    case (SeeDrained(_), Draining) =>
      if AllExited(s) then s.(shutdowns := s.shutdowns[k := Drained], cancelled := true) else s
    case (TimeOut(_), Draining) => s.(shutdowns := s.shutdowns[k := TimedOut], cancelled := true)
    case _ => s
  }

  function Step(s: State, e: Event): State {
    match e
    case Submit => s.(calls := s.calls + [Called])
    case Ask => s.(shutdowns := s.shutdowns + [Asked])
    case Check(i) => if i < |s.calls| then CallStep(s, i, e) else s
    case TrySend(i) => if i < |s.calls| then CallStep(s, i, e) else s
    case SendBlocked(i) => if i < |s.calls| then CallStep(s, i, e) else s
    case GiveUp(i) => if i < |s.calls| then CallStep(s, i, e) else s
    case CompleteRejected(i) => if i < |s.calls| then CallStep(s, i, e) else s
    case Take(w) => if w < |s.workers| then WorkerStep(s, w, e) else s
    case Finish(w) => if w < |s.workers| then WorkerStep(s, w, e) else s
    case Exit(w) => if w < |s.workers| then WorkerStep(s, w, e) else s
    case Swap(k) => if k < |s.shutdowns| then ShutdownStep(s, k, e) else s
    case Close(k) => if k < |s.shutdowns| then ShutdownStep(s, k, e) else s
    case SeeDrained(k) => if k < |s.shutdowns| then ShutdownStep(s, k, e) else s
    case TimeOut(k) => if k < |s.shutdowns| then ShutdownStep(s, k, e) else s
  }

  function Run(s: State, events: seq<Event>): State
    decreases |events|
  {
    if events == [] then s else Run(Step(s, events[0]), events[1..])
  }

  // ----- Counting -----

  function One(yes: bool): nat {
    if yes then 1 else 0
  }

  function Count(items: seq<nat>, i: nat): nat {
    if items == [] then 0 else One(items[0] == i) + Count(items[1..], i)
  }

  lemma {:induction false} CountAppend(items: seq<nat>, x: nat, i: nat)
    ensures Count(items + [x], i) == Count(items, i) + One(x == i)
  {
    if items == [] {
      assert items + [x] == [x] && [x][1..] == [];
    } else {
      assert (items + [x])[0] == items[0] && (items + [x])[1..] == items[1..] + [x];
      CountAppend(items[1..], x, i);
    }
  }

  /** How many workers are running item `i`. */
  function Busy(workers: seq<Worker>, i: nat): nat {
    if workers == [] then 0 else One(workers[0] == Running(i)) + Busy(workers[1..], i)
  }

  lemma {:induction false} BusyUpdate(workers: seq<Worker>, k: nat, w: Worker, i: nat)
    requires k < |workers|
    ensures Busy(workers[k := w], i) + One(workers[k] == Running(i)) == Busy(workers, i) + One(w == Running(i))
  {
    if k == 0 {
      assert workers[k := w][1..] == workers[1..];
    } else {
      assert workers[k := w][1..] == workers[1..][k - 1 := w];
      BusyUpdate(workers[1..], k - 1, w, i);
    }
  }

  lemma {:induction false} BusyNone(workers: seq<Worker>, i: nat)
    requires forall k :: 0 <= k < |workers| ==> !workers[k].Running?
    ensures Busy(workers, i) == 0
  {
    if workers != [] { BusyNone(workers[1..], i); }
  }

  predicate IsAccepted(s: State, i: nat) {
    i < |s.calls| && s.calls[i].Accepted?
  }

  predicate IsRejected(s: State, i: nat) {
    i < |s.calls| && (s.calls[i].Rejected? || s.calls[i].RejectedCompleted?)
  }

  // ----- The invariant -----

  /** An accepted item is queued, running or done, in exactly one of these places and once. */
  ghost predicate Placed(s: State, i: nat) {
    Count(s.queue, i) + Busy(s.workers, i) + Count(s.ran, i) == One(IsAccepted(s, i))
  }

  /** A PendingVersion is completed by the worker that ran it or by the caller that was
      turned away. */
  ghost predicate CompletedOnce(s: State, i: nat) {
    Count(s.completed, i) == Count(s.ran, i) + One(i < |s.calls| && s.calls[i].RejectedCompleted?)
  }

  ghost predicate Conserves(s: State, i: nat) {
    Placed(s, i) && CompletedOnce(s, i)
  }

  ghost predicate Lifecycle(s: State) {
    && |s.queue| <= s.capacity && |s.workers| >= 1
    && (s.closed ==> s.stopped && NoneInProgress(s))
    && (s.cancelled ==> s.closed)
    && (forall w :: 0 <= w < |s.workers| && s.workers[w].Exited? ==> s.closed && s.queue == [])
    && (forall k :: 0 <= k < |s.shutdowns| && !s.shutdowns[k].Asked? ==> s.stopped)
    && (forall k :: 0 <= k < |s.shutdowns| && (s.shutdowns[k].Draining? || s.shutdowns[k].TimedOut?) ==> s.closed)
    && (forall k :: 0 <= k < |s.shutdowns| && s.shutdowns[k].Drained? ==> s.closed && s.queue == [] && AllExited(s))
  }

  lemma EnqueuedConserves(s: State, i: nat, j: nat)
    requires Conserves(s, j) && i < |s.calls| && InProgress(s.calls[i])
    ensures Conserves(Enqueued(s, i), j)
  {
    CountAppend(s.queue, i, j);
  }

  lemma CallConserves(s: State, i: nat, e: Event, j: nat)
    requires Conserves(s, j) && i < |s.calls|
    ensures Conserves(CallStep(s, i, e), j)
  {
    var s' := CallStep(s, i, e);
    if InProgress(s.calls[i]) && s' == Enqueued(s, i) {
      EnqueuedConserves(s, i, j);
    } else {
      assert s'.queue == s.queue && IsAccepted(s', j) == IsAccepted(s, j);
      CountAppend(s.completed, i, j);
    }
  }

  lemma WorkerConserves(s: State, w: nat, e: Event, j: nat)
    requires Conserves(s, j) && w < |s.workers|
    ensures Conserves(WorkerStep(s, w, e), j)
  {
    BusyUpdate(s.workers, w, WorkerStep(s, w, e).workers[w], j);
    if s.workers[w].Running? {
      CountAppend(s.ran, s.workers[w].item, j);
      CountAppend(s.completed, s.workers[w].item, j);
    }
  }

  lemma ShutdownConserves(s: State, k: nat, e: Event, j: nat)
    requires Conserves(s, j) && k < |s.shutdowns|
    ensures Conserves(ShutdownStep(s, k, e), j)
  {
  }

  lemma StepConserves(s: State, e: Event, j: nat)
    requires Conserves(s, j)
    ensures Conserves(Step(s, e), j)
  {
    match e
    case Submit =>
    case Ask =>
    case Check(i) => if i < |s.calls| { CallConserves(s, i, e, j); }
    case TrySend(i) => if i < |s.calls| { CallConserves(s, i, e, j); }
    case SendBlocked(i) => if i < |s.calls| { CallConserves(s, i, e, j); }
    case GiveUp(i) => if i < |s.calls| { CallConserves(s, i, e, j); }
    case CompleteRejected(i) => if i < |s.calls| { CallConserves(s, i, e, j); }
    case Take(w) => if w < |s.workers| { WorkerConserves(s, w, e, j); }
    case Finish(w) => if w < |s.workers| { WorkerConserves(s, w, e, j); }
    case Exit(w) => if w < |s.workers| { WorkerConserves(s, w, e, j); }
    case Swap(k) => if k < |s.shutdowns| { ShutdownConserves(s, k, e, j); }
    case Close(k) => if k < |s.shutdowns| { ShutdownConserves(s, k, e, j); }
    case SeeDrained(k) => if k < |s.shutdowns| { ShutdownConserves(s, k, e, j); }
    case TimeOut(k) => if k < |s.shutdowns| { ShutdownConserves(s, k, e, j); }
  }

  lemma CallLifecycle(s: State, i: nat, e: Event)
    requires Lifecycle(s) && i < |s.calls|
    ensures Lifecycle(CallStep(s, i, e))
  {
  }

  lemma WorkerLifecycle(s: State, w: nat, e: Event)
    requires Lifecycle(s) && w < |s.workers|
    ensures Lifecycle(WorkerStep(s, w, e))
  {
  }

  lemma ShutdownLifecycle(s: State, k: nat, e: Event)
    requires Lifecycle(s) && k < |s.shutdowns|
    ensures Lifecycle(ShutdownStep(s, k, e))
  {
    if AllExited(s) { assert s.workers[0].Exited?; }
  }

  lemma StepLifecycle(s: State, e: Event)
    requires Lifecycle(s)
    ensures Lifecycle(Step(s, e))
  {
    match e
    case Submit =>
    case Ask =>
    case Check(i) => if i < |s.calls| { CallLifecycle(s, i, e); }
    case TrySend(i) => if i < |s.calls| { CallLifecycle(s, i, e); }
    case SendBlocked(i) => if i < |s.calls| { CallLifecycle(s, i, e); }
    case GiveUp(i) => if i < |s.calls| { CallLifecycle(s, i, e); }
    case CompleteRejected(i) => if i < |s.calls| { CallLifecycle(s, i, e); }
    case Take(w) => if w < |s.workers| { WorkerLifecycle(s, w, e); }
    case Finish(w) => if w < |s.workers| { WorkerLifecycle(s, w, e); }
    case Exit(w) => if w < |s.workers| { WorkerLifecycle(s, w, e); }
    case Swap(k) => if k < |s.shutdowns| { ShutdownLifecycle(s, k, e); }
    case Close(k) => if k < |s.shutdowns| { ShutdownLifecycle(s, k, e); }
    case SeeDrained(k) => if k < |s.shutdowns| { ShutdownLifecycle(s, k, e); }
    case TimeOut(k) => if k < |s.shutdowns| { ShutdownLifecycle(s, k, e); }
  }

  lemma {:induction false} RunConserves(s: State, events: seq<Event>, j: nat)
    requires Conserves(s, j)
    ensures Conserves(Run(s, events), j)
    decreases |events|
  {
    if events != [] {
      StepConserves(s, events[0], j);
      RunConserves(Step(s, events[0]), events[1..], j);
    }
  }

  lemma {:induction false} RunLifecycle(s: State, events: seq<Event>)
    requires Lifecycle(s)
    ensures Lifecycle(Run(s, events))
    decreases |events|
  {
    if events != [] {
      StepLifecycle(s, events[0]);
      RunLifecycle(Step(s, events[0]), events[1..]);
    }
  }

  lemma NewPoolOk(workers: int, queueSize: int, j: nat)
    ensures Conserves(NewPool(workers, queueSize), j) && Lifecycle(NewPool(workers, queueSize))
  {
    BusyNone(NewPool(workers, queueSize).workers, j);
  }

  /** A pool starts with the workers and the room asked for, at least one of each, and idle. */
  lemma NewPoolMeans(workers: int, queueSize: int)
    ensures var s := NewPool(workers, queueSize);
            && (workers >= 1 ==> |s.workers| == workers) && (workers < 1 ==> |s.workers| == 1)
            && (queueSize >= 1 ==> s.capacity == queueSize) && (queueSize < 1 ==> s.capacity == 1)
            && (forall w :: 0 <= w < |s.workers| ==> s.workers[w] == Waiting)
            && s.queue == [] && s.calls == [] && s.shutdowns == [] && s.ran == [] && s.completed == []
            && !s.stopped && !s.closed && !s.cancelled
  {
  }

  // ----- Main results -----

  /** In every run an accepted item is queued, running or done, once and in one place only,
      and no other item ever is. */
  lemma ExactlyOnce(workers: int, queueSize: int, events: seq<Event>, i: nat)
    ensures var s := Run(NewPool(workers, queueSize), events);
            && Count(s.queue, i) + Busy(s.workers, i) + Count(s.ran, i) == One(IsAccepted(s, i))
            && |s.queue| <= s.capacity
  {
    NewPoolOk(workers, queueSize, i);
    RunConserves(NewPool(workers, queueSize), events, i);
    RunLifecycle(NewPool(workers, queueSize), events);
  }

  /** A PendingVersion is completed at most once: by the worker for an accepted item, by
      the caller for a rejected one, never by both. */
  lemma CompletedAtMostOnce(workers: int, queueSize: int, events: seq<Event>, i: nat)
    ensures var s := Run(NewPool(workers, queueSize), events);
            && Count(s.completed, i) <= 1
            && (Count(s.completed, i) == 1 <==>
                  Count(s.ran, i) == 1 || (IsRejected(s, i) && s.calls[i].RejectedCompleted?))
            && (IsAccepted(s, i) ==> Count(s.completed, i) == Count(s.ran, i))
  {
    NewPoolOk(workers, queueSize, i);
    RunConserves(NewPool(workers, queueSize), events, i);
  }

  /** Once the winning Shutdown has returned nil, every accepted item has run, exactly
      once, and its PendingVersion is complete. */
  lemma ShutdownDrains(workers: int, queueSize: int, events: seq<Event>, k: nat, i: nat)
    requires var s := Run(NewPool(workers, queueSize), events); k < |s.shutdowns| && s.shutdowns[k].Drained?
    ensures var s := Run(NewPool(workers, queueSize), events);
            && Count(s.ran, i) == One(IsAccepted(s, i))
            && (IsAccepted(s, i) ==> Count(s.completed, i) == 1)
            && NoneInProgress(s) && s.queue == []
  {
    var s := Run(NewPool(workers, queueSize), events);
    NewPoolOk(workers, queueSize, i);
    RunConserves(NewPool(workers, queueSize), events, i);
    RunLifecycle(NewPool(workers, queueSize), events);
    assert AllExited(s);
    BusyNone(s.workers, i);
  }

  /** The context of the pool is cancelled only after the channel is closed, so no blocked
      Submit ever gives up: it waits until there is room. */
  lemma BlockedNeverGivesUp(workers: int, queueSize: int, events: seq<Event>, i: nat)
    ensures var s := Run(NewPool(workers, queueSize), events); Step(s, GiveUp(i)) == s
  {
    NewPoolOk(workers, queueSize, i);
    RunLifecycle(NewPool(workers, queueSize), events);
    var s := Run(NewPool(workers, queueSize), events);
    assert i < |s.calls| && s.cancelled ==> !InProgress(s.calls[i]);
  }

  lemma RunSnoc(s: State, events: seq<Event>, e: Event)
    ensures Run(s, events + [e]) == Step(Run(s, events), e)
    decreases |events|
  {
    if events == [] {
      assert events + [e] == [e] && [e][1..] == [];
    } else {
      assert (events + [e])[0] == events[0] && (events + [e])[1..] == events[1..] + [e];
      RunSnoc(Step(s, events[0]), events[1..], e);
    }
  }

  /** A Shutdown that is not the first returns nil at once, whatever is still queued. */
  lemma SecondShutdownDoesNotWait() returns (events: seq<Event>)
    ensures var s := Run(NewPool(1, 1), events);
            |s.shutdowns| == 2 && s.shutdowns[1].AlreadyDown? && s.queue == [0] && s.calls == [Accepted]
  {
    var s0 := NewPool(1, 1);
    RunSnoc(s0, [], Submit);
    RunSnoc(s0, [] + [Submit], Check(0));
    RunSnoc(s0, [] + [Submit] + [Check(0)], TrySend(0));
    var accepted := [] + [Submit] + [Check(0)] + [TrySend(0)];
    assert Run(s0, accepted).queue == [0];
    RunSnoc(s0, accepted, Ask);
    RunSnoc(s0, accepted + [Ask], Ask);
    RunSnoc(s0, accepted + [Ask] + [Ask], Swap(0));
    RunSnoc(s0, accepted + [Ask] + [Ask] + [Swap(0)], Swap(1));
    events := accepted + [Ask] + [Ask] + [Swap(0)] + [Swap(1)];
  }

  // ----- Who is turned away, and who wins -----

  ghost predicate Wins(s: State, k: nat) {
    k < |s.shutdowns| && !s.shutdowns[k].Asked? && !s.shutdowns[k].AlreadyDown?
  }

  /** Nobody is turned away before the pool is stopped, one Shutdown stops it, and it cancels the
      context before it returns. */
  ghost predicate Decided(s: State) {
    && (forall i :: 0 <= i < |s.calls| && (s.calls[i].Rejected? || s.calls[i].RejectedCompleted?) ==> s.stopped)
    && (forall j, k :: Wins(s, j) && Wins(s, k) ==> j == k)
    && (s.stopped <==> exists k :: Wins(s, k))
    && (forall k :: 0 <= k < |s.shutdowns| && (s.shutdowns[k].Drained? || s.shutdowns[k].TimedOut?) ==> s.cancelled)
  }

  lemma CallDecided(s: State, i: nat, e: Event)
    requires Lifecycle(s) && Decided(s) && i < |s.calls|
    ensures Decided(CallStep(s, i, e))
  {
    var s' := CallStep(s, i, e);
    assert s'.shutdowns == s.shutdowns && s'.stopped == s.stopped;
    assert forall k :: Wins(s', k) <==> Wins(s, k);
  }

  lemma ShutdownDecided(s: State, k: nat, e: Event)
    requires Decided(s) && k < |s.shutdowns|
    ensures Decided(ShutdownStep(s, k, e))
  {
    var s' := ShutdownStep(s, k, e);
    assert s'.calls == s.calls;
    assert forall j :: j != k ==> (Wins(s', j) <==> Wins(s, j));
    if Wins(s, k) { assert Wins(s', k); }
    if s'.stopped && !s.stopped { assert Wins(s', k); }
  }

  lemma StepDecided(s: State, e: Event)
    requires Lifecycle(s) && Decided(s)
    ensures Decided(Step(s, e))
  {
    match e
    case Submit => assert forall k :: Wins(Step(s, e), k) <==> Wins(s, k);
    case Ask => assert forall k :: Wins(Step(s, e), k) <==> Wins(s, k);
    case Check(i) => if i < |s.calls| { CallDecided(s, i, e); }
    case TrySend(i) => if i < |s.calls| { CallDecided(s, i, e); }
    case SendBlocked(i) => if i < |s.calls| { CallDecided(s, i, e); }
    case GiveUp(i) => if i < |s.calls| { CallDecided(s, i, e); }
    case CompleteRejected(i) => if i < |s.calls| { CallDecided(s, i, e); }
    case Take(w) => assert forall k :: Wins(Step(s, e), k) <==> Wins(s, k);
    case Finish(w) => assert forall k :: Wins(Step(s, e), k) <==> Wins(s, k);
    case Exit(w) => assert forall k :: Wins(Step(s, e), k) <==> Wins(s, k);
    case Swap(k) => if k < |s.shutdowns| { ShutdownDecided(s, k, e); }
    case Close(k) => if k < |s.shutdowns| { ShutdownDecided(s, k, e); }
    case SeeDrained(k) => if k < |s.shutdowns| { ShutdownDecided(s, k, e); }
    case TimeOut(k) => if k < |s.shutdowns| { ShutdownDecided(s, k, e); }
  }

  lemma {:induction false} RunDecided(s: State, events: seq<Event>)
    requires Lifecycle(s) && Decided(s)
    ensures Decided(Run(s, events))
    decreases |events|
  {
    if events != [] {
      StepLifecycle(s, events[0]);
      StepDecided(s, events[0]);
      RunDecided(Step(s, events[0]), events[1..]);
    }
  }

  /** In every run, items are turned away only once the pool is stopped, and of all Shutdowns
      that got that far exactly one has stopped it; when it returns, drained or timed out, the
      context of the workers is cancelled. */
  lemma OneShutdownWins(workers: int, queueSize: int, events: seq<Event>)
    ensures var s := Run(NewPool(workers, queueSize), events);
            && (forall i :: IsRejected(s, i) ==> s.stopped)
            && (s.stopped <==> exists k :: Wins(s, k)) && (forall j, k :: Wins(s, j) && Wins(s, k) ==> j == k)
            && forall k :: 0 <= k < |s.shutdowns| ==>
                 s.shutdowns[k].Drained? || s.shutdowns[k].TimedOut? ==> s.cancelled
  {
    NewPoolOk(workers, queueSize, 0);
    RunDecided(NewPool(workers, queueSize), events);
  }

  /** The call has not been let in. */
  ghost predicate KeptOut(s: State, i: nat) {
    s.stopped && i < |s.calls| && (s.calls[i].Called? || s.calls[i].Rejected? || s.calls[i].RejectedCompleted?)
  }

  lemma StepKeepsOut(s: State, e: Event, i: nat)
    requires KeptOut(s, i)
    ensures KeptOut(Step(s, e), i)
  {
  }

  /** Once the pool is stopped, no Submit that has not got past its check is ever accepted. */
  lemma {:induction false} LateSubmitRejected(s: State, events: seq<Event>, i: nat)
    requires s.stopped && i < |s.calls| && s.calls[i].Called?
    ensures !IsAccepted(Run(s, events), i)
  {
    RunKeepsOut(s, events, i);
  }

  lemma {:induction false} RunKeepsOut(s: State, events: seq<Event>, i: nat)
    requires KeptOut(s, i)
    ensures KeptOut(Run(s, events), i)
    decreases |events|
  {
    if events != [] {
      StepKeepsOut(s, events[0], i);
      RunKeepsOut(Step(s, events[0]), events[1..], i);
    }
  }

  // ----- First in, first out -----

  /** The item a step puts into the channel, if it does. */
  function Admits(s: State, e: Event): seq<nat> {
    if (e.TrySend? || e.SendBlocked?) && e.call < |s.calls| && !s.calls[e.call].Accepted?
       && Step(s, e).calls[e.call].Accepted? then [e.call] else []
  }

  /** The item a step makes a worker start on, if it does. */
  function Starts(s: State, e: Event): seq<nat> {
    if e.Take? && e.worker < |s.workers| && s.workers[e.worker].Waiting? && Step(s, e).workers[e.worker].Running?
    then [Step(s, e).workers[e.worker].item] else []
  }

  function Admitted(s: State, events: seq<Event>): seq<nat>
    decreases |events|
  {
    if events == [] then [] else Admits(s, events[0]) + Admitted(Step(s, events[0]), events[1..])
  }

  function Started(s: State, events: seq<Event>): seq<nat>
    decreases |events|
  {
    if events == [] then [] else Starts(s, events[0]) + Started(Step(s, events[0]), events[1..])
  }

  lemma CallInTurn(s: State, i: nat, e: Event)
    requires i < |s.calls|
    ensures CallStep(s, i, e).queue ==
            s.queue + if !s.calls[i].Accepted? && CallStep(s, i, e).calls[i].Accepted? then [i] else []
    ensures CallStep(s, i, e).workers == s.workers
    ensures !e.TrySend? && !e.SendBlocked? ==> CallStep(s, i, e).queue == s.queue
  {
  }

  lemma WorkerInTurn(s: State, w: nat, e: Event)
    requires w < |s.workers|
    ensures var after := WorkerStep(s, w, e);
            s.queue == (if s.workers[w].Waiting? && after.workers[w].Running? then [after.workers[w].item] else [])
                       + after.queue
    ensures !e.Take? ==> WorkerStep(s, w, e).queue == s.queue
  {
  }

  lemma StepInTurn(s: State, e: Event)
    ensures s.queue + Admits(s, e) == Starts(s, e) + Step(s, e).queue
  {
    match e
    case Check(i) => if i < |s.calls| { CallInTurn(s, i, e); }
    case TrySend(i) => if i < |s.calls| { CallInTurn(s, i, e); }
    case SendBlocked(i) => if i < |s.calls| { CallInTurn(s, i, e); }
    case GiveUp(i) => if i < |s.calls| { CallInTurn(s, i, e); }
    case CompleteRejected(i) => if i < |s.calls| { CallInTurn(s, i, e); }
    case Take(w) => if w < |s.workers| { WorkerInTurn(s, w, e); }
    case Finish(w) => if w < |s.workers| { WorkerInTurn(s, w, e); }
    case Exit(w) => if w < |s.workers| { WorkerInTurn(s, w, e); }
    case _ => assert Step(s, e).queue == s.queue;
  }

  lemma Onward(queue: seq<nat>, put: seq<nat>, taken: seq<nat>, queue1: seq<nat>, puts: seq<nat>, takes: seq<nat>,
      queue2: seq<nat>)
    requires queue + put == taken + queue1 && queue1 + puts == takes + queue2
    ensures queue + (put + puts) == (taken + takes) + queue2
  {
    assert queue + (put + puts) == (queue + put) + puts == taken + (queue1 + puts) == (taken + takes) + queue2;
  }

  lemma {:induction false} RunInTurn(s: State, events: seq<Event>)
    ensures s.queue + Admitted(s, events) == Started(s, events) + Run(s, events).queue
    decreases |events|
  {
    if events != [] {
      var s' := Step(s, events[0]);
      StepInTurn(s, events[0]);
      RunInTurn(s', events[1..]);
      Onward(s.queue, Admits(s, events[0]), Starts(s, events[0]), s'.queue, Admitted(s', events[1..]),
             Started(s', events[1..]), Run(s', events[1..]).queue);
    } else {
      assert s.queue + [] == [] + s.queue;
    }
  }

  /** Items are started in the order in which they were accepted. */
  lemma FirstInFirstOut(workers: int, queueSize: int, events: seq<Event>)
    ensures var s := NewPool(workers, queueSize);
            Admitted(s, events) == Started(s, events) + Run(s, events).queue
  {
    var s := NewPool(workers, queueSize);
    RunInTurn(s, events);
    assert [] + Admitted(s, events) == Admitted(s, events);
  }

  // ----- It can always finish -----

  function CallWeight(c: Call): nat {
    match c case Sending => 6 case Blocked => 5 case _ => 0
  }

  function WorkerWeight(w: Worker): nat {
    match w case Running(_) => 2 case Waiting => 1 case Exited => 0
  }

  function CallsWeight(calls: seq<Call>): nat {
    if calls == [] then 0 else CallWeight(calls[0]) + CallsWeight(calls[1..])
  }

  function WorkersWeight(workers: seq<Worker>): nat {
    if workers == [] then 0 else WorkerWeight(workers[0]) + WorkersWeight(workers[1..])
  }

  lemma {:induction false} CallsUpdate(calls: seq<Call>, i: nat, c: Call)
    requires i < |calls|
    ensures CallsWeight(calls[i := c]) + CallWeight(calls[i]) == CallsWeight(calls) + CallWeight(c)
  {
    if i == 0 {
      assert calls[0 := c][1..] == calls[1..];
    } else {
      assert calls[i := c][1..] == calls[1..][i - 1 := c];
      CallsUpdate(calls[1..], i - 1, c);
    }
  }

  lemma {:induction false} WorkersUpdate(workers: seq<Worker>, i: nat, w: Worker)
    requires i < |workers|
    ensures WorkersWeight(workers[i := w]) + WorkerWeight(workers[i]) == WorkersWeight(workers) + WorkerWeight(w)
  {
    if i == 0 {
      assert workers[0 := w][1..] == workers[1..];
    } else {
      assert workers[i := w][1..] == workers[1..][i - 1 := w];
      WorkersUpdate(workers[1..], i - 1, w);
    }
  }

  /** What is left to do until Shutdown `k` can see that all is done. */
  function ToDo(s: State, k: nat): nat
    requires k < |s.shutdowns|
  {
    CallsWeight(s.calls) + 2 * |s.queue| + WorkersWeight(s.workers) + (if s.shutdowns[k].Won? then 1 else 0)
  }

  /** The Shutdown has won, and has not returned. */
  ghost predicate Underway(s: State, k: nat) {
    && Lifecycle(s) && s.capacity >= 1 && k < |s.shutdowns|
    && (s.shutdowns[k].Won? || s.shutdowns[k].Draining?)
  }

  /** A step of a worker, */
  lemma WorkerUseful(s: State, k: nat, w: nat, e: Event)
    requires Underway(s, k) && w < |s.workers|
    requires || (e == Finish(w) && s.workers[w].Running?)
             || (e == Take(w) && s.workers[w].Waiting? && s.queue != [])
             || (e == Exit(w) && s.workers[w].Waiting? && s.queue == [] && s.closed)
    ensures Underway(Step(s, e), k) && ToDo(Step(s, e), k) < ToDo(s, k)
  {
    StepLifecycle(s, e);
    WorkersUpdate(s.workers, w, Step(s, e).workers[w]);
  }

  /** or of a Submit, that makes some of it done. */
  lemma CallUseful(s: State, k: nat, i: nat, e: Event)
    requires Underway(s, k) && i < |s.calls| && s.queue == []
    requires (e == TrySend(i) && s.calls[i].Sending?) || (e == SendBlocked(i) && s.calls[i].Blocked?)
    ensures Underway(Step(s, e), k) && ToDo(Step(s, e), k) < ToDo(s, k)
  {
    StepLifecycle(s, e);
    CallsUpdate(s.calls, i, Accepted);
  }

  lemma Useful(s: State, k: nat) returns (e: Event)
    requires Underway(s, k) && !(s.shutdowns[k].Draining? && AllExited(s))
    ensures Underway(Step(s, e), k) && ToDo(Step(s, e), k) < ToDo(s, k)
  {
    if w: nat :| w < |s.workers| && s.workers[w].Running? {
      e := Finish(w);
      WorkerUseful(s, k, w, e);
    } else if s.queue != [] {
      assert !s.workers[0].Exited?;
      e := Take(0);
      WorkerUseful(s, k, 0, e);
    } else if i: nat :| i < |s.calls| && InProgress(s.calls[i]) {
      e := if s.calls[i].Sending? then TrySend(i) else SendBlocked(i);
      CallUseful(s, k, i, e);
    } else if s.shutdowns[k].Won? {
      e := Close(k);
      StepLifecycle(s, e);
    } else {
      var w: nat :| w < |s.workers| && !s.workers[w].Exited?;
      e := Exit(w);
      WorkerUseful(s, k, w, e);
    }
  }

  lemma {:induction false} CanFinish(s: State, k: nat) returns (events: seq<Event>)
    requires Underway(s, k)
    ensures k < |Run(s, events).shutdowns| && Run(s, events).shutdowns[k].Drained?
    decreases ToDo(s, k)
  {
    if s.shutdowns[k].Draining? && AllExited(s) {
      events := [SeeDrained(k)];
      assert events[1..] == [];
    } else {
      var e := Useful(s, k);
      var rest := CanFinish(Step(s, e), k);
      events := [e] + rest;
      assert events[1..] == rest;
    }
  }

  lemma {:induction false} RunCapacity(s: State, events: seq<Event>)
    ensures Run(s, events).capacity == s.capacity
    decreases |events|
  {
    if events != [] { RunCapacity(Step(s, events[0]), events[1..]); }
  }

  /** No run leads into a deadlock: however far it has got, a Shutdown that has won and not
      returned can still return nil, with every item accepted by then done. */
  lemma ShutdownCanFinish(workers: int, queueSize: int, events: seq<Event>, k: nat) returns (more: seq<Event>)
    requires var s := Run(NewPool(workers, queueSize), events);
             k < |s.shutdowns| && (s.shutdowns[k].Won? || s.shutdowns[k].Draining?)
    ensures var s := Run(Run(NewPool(workers, queueSize), events), more);
            k < |s.shutdowns| && s.shutdowns[k].Drained?
  {
    NewPoolOk(workers, queueSize, 0);
    RunLifecycle(NewPool(workers, queueSize), events);
    RunCapacity(NewPool(workers, queueSize), events);
    more := CanFinish(Run(NewPool(workers, queueSize), events), k);
  }
}
