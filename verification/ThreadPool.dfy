// The libuv thread pool: a work queue and a slow-I/O queue served by worker threads, with
// cancellation and completion on an event loop. A state is what one mutex release leaves; a step is
// the region up to the next one.
module ThreadPool {
  import opened Options

  // What the work queue links: work requests, run_slow_work_message and exit_message
  datatype Message = Item(id: nat) | RunSlow | Exit

  // Where a worker thread is
  datatype Worker =
    | AtTop                          // about to look at the queue
    | Waiting                        // blocked in uv_cond_wait
    | Signalled                      // woken, but without the mutex yet
    | Taken(id: nat, slow: bool)     // out of the mutex, the work not run yet
    | Ran(id: nat, slow: bool)       // the work has run
    | Handed(slow: bool)             // the request is back with its loop
    | Gone
  {
    predicate Idle() { Waiting? || Signalled? }
    predicate Slow() { (Taken? || Ran? || Handed?) && slow }
    predicate Awake() { !Waiting? && !Gone? }
    predicate Holding() { Taken? || Ran? }
  }

  // The work field of a request: the callback, NULL once it has run, or uv__cancelled
  datatype WorkField = Callback | Null | Cancelled

  datatype State = State(
    workers: seq<Worker>,
    wq: seq<Message>,
    slow: seq<nat>,                  // slow_io_pending_wq
    idle: int,                       // idle_threads
    slowRunning: int,                // slow_io_work_running
    exiting: bool,                   // exit_message has been posted
    loopQueue: seq<nat>,             // loop->wq
    local: seq<nat>,                 // the list uv__work_done is working off
    cancelling: Option<nat>,         // removed by uv__work_cancel, not yet in loop->wq
    work: map<nat, WorkField>,       // every request submitted
    runs: seq<nat>,                  // history: the works run
    dones: seq<(nat, bool)>,         // history: done callbacks, with ECANCELED or not
    cancels: set<nat>                // history: requests whose cancel returned 0
  )

  function Threshold(s: State): int {
    (|s.workers| + 1) / 2
  }

  function Initial(nthreads: nat): State {
    State(seq(nthreads, _ => AtTop), [], [], 0, 0, false, [], [], None, map[], [], [], {})
  }

  // uv_cond_signal: wakes the worker picked by the system, if one is blocked
  function Signal(s: State, pick: nat): State {
    if pick < |s.workers| && s.workers[pick].Waiting? then s.(workers := s.workers[pick := Signalled]) else s
  }

  ghost predicate Picks(s: State, pick: nat) {
    (exists i :: 0 <= i < |s.workers| && s.workers[i].Waiting?) ==> pick < |s.workers| && s.workers[pick].Waiting?
  }

  function Enqueue(s: State, m: Message, pick: nat): State {
    var s' := s.(wq := s.wq + [m]);
    if s.idle > 0 then Signal(s', pick) else s'
  }

  function Post(s: State, id: nat, isSlow: bool, pick: nat): State {
    if !isSlow then Enqueue(s, Item(id), pick)
    else
      var s' := s.(slow := s.slow + [id]);
      if RunSlow in s.wq then s' else Enqueue(s', RunSlow, pick)
  }

  function Submit(s: State, id: nat, isSlow: bool, pick: nat): State {
    Post(s.(work := s.work[id := Callback]), id, isSlow, pick)
  }

  function PostExit(s: State, pick: nat): State {
    Enqueue(s.(exiting := true), Exit, pick)
  }

  predicate MustWait(s: State) {
    s.wq == [] || (s.wq == [RunSlow] && s.slowRunning >= Threshold(s))
  }

  // Passing the exit message on
  function Leave(s: State, i: nat, pick: nat): State
    requires i < |s.workers|
  {
    Signal(s, pick).(workers := Signal(s, pick).workers[i := Gone])
  }

  // Taking the run-slow message and the first slow request
  function TakeSlow(s: State, i: nat): State
    requires i < |s.workers| && s.wq != [] && s.slow != []
  {
    s.(wq := s.wq[1..], slow := s.slow[1..], slowRunning := s.slowRunning + 1,
       workers := s.workers[i := Taken(s.slow[0], true)])
  }

  // A worker with the mutex looks at the queue once
  function Look(s: State, i: nat, pick: nat): State
    requires i < |s.workers|
  {
    if MustWait(s) then
      s.(idle := s.idle + 1, workers := s.workers[i := Waiting])
    else
      match s.wq[0]
      case Exit => Leave(s, i, pick)
      case Item(id) => s.(wq := s.wq[1..], workers := s.workers[i := Taken(id, false)])
      case RunSlow =>
        if s.slowRunning >= Threshold(s) then s.(wq := s.wq[1..] + [RunSlow])
        else if s.slow == [] then s.(wq := s.wq[1..])
        else
          var s' := TakeSlow(s, i);
          if s'.slow != [] then Enqueue(s', RunSlow, pick) else s'
  }

  // Waking up, by a signal or spuriously, and getting the mutex back
  function WakeUp(s: State, i: nat): State
    requires i < |s.workers|
  {
    s.(workers := s.workers[i := Signalled])
  }

  function Reacquire(s: State, i: nat): State
    requires i < |s.workers|
  {
    s.(idle := s.idle - 1, workers := s.workers[i := AtTop])
  }

  function RunWork(s: State, i: nat): State
    requires i < |s.workers| && s.workers[i].Taken?
  {
    s.(runs := s.runs + [s.workers[i].id], workers := s.workers[i := Ran(s.workers[i].id, s.workers[i].slow)])
  }

  function HandOver(s: State, i: nat): State
    requires i < |s.workers| && s.workers[i].Ran?
  {
    s.(work := s.work[s.workers[i].id := Null], loopQueue := s.loopQueue + [s.workers[i].id],
       workers := s.workers[i := Handed(s.workers[i].slow)])
  }

  function Relock(s: State, i: nat): State
    requires i < |s.workers| && s.workers[i].Handed?
  {
    s.(slowRunning := if s.workers[i].slow then s.slowRunning - 1 else s.slowRunning,
       workers := s.workers[i := AtTop])
  }

  function Without<T(==)>(q: seq<T>, x: T): seq<T> {
    if q == [] then [] else if q[0] == x then q[1..] else [q[0]] + Without(q[1..], x)
  }

  // The request is in some list and its work has not run
  predicate Cancellable(s: State, id: nat)
    requires id in s.work
  {
    (Item(id) in s.wq || id in s.slow || id in s.loopQueue || id in s.local) && s.work[id] != Null
  }

  // uv__work_cancel up to releasing the mutexes; otherwise it returns UV_EBUSY and changes nothing
  function TryCancel(s: State, id: nat): State
    requires id in s.work
  {
    if Cancellable(s, id) then
      s.(wq := Without(s.wq, Item(id)), slow := Without(s.slow, id), loopQueue := Without(s.loopQueue, id),
         local := Without(s.local, id), cancelling := Some(id), cancels := s.cancels + {id})
    else s
  }

  function FinishCancel(s: State): State
    requires s.cancelling.Some?
  {
    s.(work := s.work[s.cancelling.value := Cancelled], loopQueue := s.loopQueue + [s.cancelling.value],
       cancelling := None)
  }

  // uv__work_done: moves the loop's queue aside, then calls back one request after the other
  function MoveDone(s: State): State {
    s.(local := s.loopQueue, loopQueue := [])
  }

  function CallDone(s: State): State
    requires s.local != [] && s.local[0] in s.work
  {
    s.(local := s.local[1..], dones := s.dones + [(s.local[0], s.work[s.local[0]] == Cancelled)])
  }

  datatype Step =
    | Submitting(id: nat, isSlow: bool, pick: nat)
    | Exiting(pick: nat)
    | Looking(i: nat, pick: nat)
    | Waking(i: nat)
    | Reacquiring(i: nat)
    | Running(i: nat)
    | HandingOver(i: nat)
    | Relocking(i: nat)
    | Cancelling(id: nat)
    | FinishingCancel
    | MovingDone
    | CallingDone

  // Requests are submitted once and not after exit; cancel is called on the loop's thread, on a
  // request that is not done.
  ghost predicate Enabled(s: State, step: Step) {
    match step
    case Submitting(id, _, pick) => id !in s.work && !s.exiting && Picks(s, pick)
    case Exiting(pick) => !s.exiting && Picks(s, pick)
    case Looking(i, pick) => i < |s.workers| && s.workers[i].AtTop? && Picks(s, pick)
    case Waking(i) => i < |s.workers| && s.workers[i].Waiting?
    case Reacquiring(i) => i < |s.workers| && s.workers[i].Signalled?
    case Running(i) => i < |s.workers| && s.workers[i].Taken?
    case HandingOver(i) => i < |s.workers| && s.workers[i].Ran?
    case Relocking(i) => i < |s.workers| && s.workers[i].Handed?
    case Cancelling(id) => id in s.work && s.cancelling.None? && !Finished(s, id)
    case FinishingCancel => s.cancelling.Some?
    case MovingDone => s.local == [] && s.cancelling.None?
    case CallingDone => s.local != [] && s.cancelling.None? && s.local[0] in s.work
  }

  ghost predicate Finished(s: State, id: nat) {
    id in DoneIds(s.dones)
  }

  function DoneIds(dones: seq<(nat, bool)>): seq<nat> {
    if dones == [] then [] else DoneIds(dones[..|dones| - 1]) + [dones[|dones| - 1].0]
  }

  ghost function Apply(s: State, step: Step): State
    requires Enabled(s, step)
  {
    match step
    case Submitting(id, isSlow, pick) => Submit(s, id, isSlow, pick)
    case Exiting(pick) => PostExit(s, pick)
    case Looking(i, pick) => Look(s, i, pick)
    case Waking(i) => WakeUp(s, i)
    case Reacquiring(i) => Reacquire(s, i)
    case Running(i) => RunWork(s, i)
    case HandingOver(i) => HandOver(s, i)
    case Relocking(i) => Relock(s, i)
    case Cancelling(id) => TryCancel(s, id)
    case FinishingCancel => FinishCancel(s)
    case MovingDone => MoveDone(s)
    case CallingDone => CallDone(s)
  }

  const UV_EBUSY := -16

  // The pool's globals and one loop, changed in place region by region
  class Pool {
    var workers: seq<Worker>
    var wq: seq<Message>
    var slowPending: seq<nat>
    var idleThreads: int
    var slowIoWorkRunning: int
    var exiting: bool
    var loopQueue: seq<nat>
    var local: seq<nat>
    var cancelling: Option<nat>
    var work: map<nat, WorkField>
    ghost var runs: seq<nat>
    ghost var dones: seq<(nat, bool)>
    ghost var cancels: set<nat>

    ghost function View(): State
      reads this
    {
      State(workers, wq, slowPending, idleThreads, slowIoWorkRunning, exiting, loopQueue, local, cancelling,
            work, runs, dones, cancels)
    }

    constructor (nthreads: nat)
      ensures View() == Initial(nthreads)
    {
      workers, wq, slowPending := seq(nthreads, _ => AtTop), [], [];
      idleThreads, slowIoWorkRunning, exiting := 0, 0, false;
      loopQueue, local, cancelling, work := [], [], None, map[];
      runs, dones, cancels := [], [], {};
    }

    method CondSignal(pick: nat)
      modifies this`workers
      ensures View() == Signal(old(View()), pick)
    {
      if pick < |workers| && workers[pick].Waiting? {
        workers := workers[pick := Signalled];
      }
    }

    // post()
    method PostMessage(id: nat, isSlow: bool, pick: nat)
      modifies this`wq, this`slowPending, this`workers
      ensures View() == Post(old(View()), id, isSlow, pick)
    {
      var q := Item(id);
      if isSlow {
        slowPending := slowPending + [id];
        if RunSlow in wq {
          return;
        }
        q := RunSlow;
      }
      wq := wq + [q];
      if idleThreads > 0 {
        CondSignal(pick);
      }
    }

    method WorkSubmit(id: nat, isSlow: bool, pick: nat)
      modifies this
      ensures View() == Submit(old(View()), id, isSlow, pick)
    {
      work := work[id := Callback];
      PostMessage(id, isSlow, pick);
    }

    // One look of worker() at the queue, up to the next mutex release or to the next turn of its loop
    method WorkerLook(i: nat, pick: nat)
      requires i < |workers|
      modifies this
      ensures View() == Look(old(View()), i, pick)
    {
      if |wq| == 0 || (wq[0] == RunSlow && |wq| == 1 && slowIoWorkRunning >= (|workers| + 1) / 2) {
        assert wq == [] || wq == [RunSlow];
        idleThreads := idleThreads + 1;
        workers := workers[i := Waiting];
        return;
      }
      var q := wq[0];
      if q == Exit {
        CondSignal(pick);
        workers := workers[i := Gone];
        return;
      }
      wq := wq[1..];
      if q == RunSlow {
        if slowIoWorkRunning >= (|workers| + 1) / 2 {
          wq := wq + [q];
          return;
        }
        if slowPending == [] {
          return;
        }
        slowIoWorkRunning := slowIoWorkRunning + 1;
        workers := workers[i := Taken(slowPending[0], true)];
        slowPending := slowPending[1..];
        if slowPending != [] {
          wq := wq + [RunSlow];
          if idleThreads > 0 {
            CondSignal(pick);
          }
        }
      } else {
        workers := workers[i := Taken(q.id, false)];
      }
    }

    // The worker's second region: the request goes back to its loop
    method WorkerHandOver(i: nat)
      requires i < |workers| && workers[i].Ran?
      modifies this
      ensures View() == HandOver(old(View()), i)
    {
      var w := workers[i];
      work := work[w.id := Null];
      loopQueue := loopQueue + [w.id];
      workers := workers[i := Handed(w.slow)];
    }

    // uv__work_cancel, which releases the mutexes between its two regions
    method WorkCancel(id: nat) returns (status: int)
      requires id in work
      modifies this
      ensures status == if Cancellable(old(View()), id) then 0 else UV_EBUSY
      ensures View() == if Cancellable(old(View()), id) then FinishCancel(TryCancel(old(View()), id)) else old(View())
    {
      var cancelled := Unlink(id);
      if !cancelled {
        return UV_EBUSY;
      }
      ReturnCancelled(id);
      return 0;
    }

    method Unlink(id: nat) returns (cancelled: bool)
      requires id in work
      modifies this`wq, this`slowPending, this`loopQueue, this`local, this`cancelling, this`cancels
      ensures cancelled == Cancellable(old(View()), id)
      ensures View() == TryCancel(old(View()), id)
    {
      cancelled := (Item(id) in wq || id in slowPending || id in loopQueue || id in local) && work[id] != Null;
      if cancelled {
        wq := Without(wq, Item(id));
        slowPending := Without(slowPending, id);
        loopQueue := Without(loopQueue, id);
        local := Without(local, id);
        cancelling := Some(id);
        cancels := cancels + {id};
      }
    }

    method ReturnCancelled(id: nat)
      requires cancelling == Some(id)
      modifies this`work, this`loopQueue, this`cancelling
      ensures View() == FinishCancel(old(View()))
    {
      work := work[id := Cancelled];
      loopQueue := loopQueue + [id];
      cancelling := None;
    }

    // One callback of uv__work_done
    method WorkDoneOne() returns (id: nat, cancelled: bool)
      requires local != [] && local[0] in work
      modifies this
      ensures View() == CallDone(old(View())) && (id, cancelled) == dones[|dones| - 1]
    {
      id := local[0];
      local := local[1..];
      cancelled := work[id] == Cancelled;
      dones := dones + [(id, cancelled)];
    }
  }
}
