// What every run of the thread pool keeps: scheduling, conservation of requests, cancellation.
module ThreadPoolProofs {
  import opened Options
  import opened ThreadPool

  function Occurrences<T(==)>(q: seq<T>, x: T): nat {
    if q == [] then 0 else (if q[0] == x then 1 else 0) + Occurrences(q[1..], x)
  }

  lemma {:induction false} OccurrencesAppended<T>(q: seq<T>, y: T, x: T)
    ensures Occurrences(q + [y], x) == Occurrences(q, x) + if y == x then 1 else 0
  {
    if q == [] {
      assert q + [y] == [y];
    } else {
      assert (q + [y])[1..] == q[1..] + [y];
      OccurrencesAppended(q[1..], y, x);
    }
  }

  lemma {:induction false} OccurrencesIn<T>(q: seq<T>, x: T)
    ensures x in q <==> Occurrences(q, x) > 0
  {
    if q != [] {
      OccurrencesIn(q[1..], x);
      assert q == [q[0]] + q[1..];
    }
  }

  lemma {:induction false} OccurrencesWithout<T>(q: seq<T>, y: T, x: T)
    ensures Occurrences(Without(q, y), x) ==
            if x == y && Occurrences(q, x) > 0 then Occurrences(q, x) - 1 else Occurrences(q, x)
  {
    if q != [] && q[0] != y {
      OccurrencesWithout(q[1..], y, x);
      assert ([q[0]] + Without(q[1..], y))[1..] == Without(q[1..], y);
    }
  }

  // ---------- scheduling ----------

  function IdleCount(ws: seq<Worker>): nat {
    if ws == [] then 0 else (if ws[0].Idle() then 1 else 0) + IdleCount(ws[1..])
  }

  function SlowCount(ws: seq<Worker>): nat {
    if ws == [] then 0 else (if ws[0].Slow() then 1 else 0) + SlowCount(ws[1..])
  }

  lemma {:induction false} CountsAfter(ws: seq<Worker>, i: nat, w: Worker)
    requires i < |ws|
    ensures IdleCount(ws[i := w]) == IdleCount(ws) - (if ws[i].Idle() then 1 else 0) + (if w.Idle() then 1 else 0)
    ensures SlowCount(ws[i := w]) == SlowCount(ws) - (if ws[i].Slow() then 1 else 0) + (if w.Slow() then 1 else 0)
  {
    if i == 0 {
      assert ws[i := w][1..] == ws[1..];
    } else {
      assert ws[i := w][1..] == ws[1..][i - 1 := w];
      CountsAfter(ws[1..], i - 1, w);
    }
  }

  lemma {:induction false} SlowWorkerExists(ws: seq<Worker>) returns (i: nat)
    requires SlowCount(ws) > 0
    ensures i < |ws| && ws[i].Slow()
  {
    if ws[0].Slow() {
      i := 0;
    } else {
      i := SlowWorkerExists(ws[1..]);
      i := i + 1;
    }
  }

  ghost predicate SomeAwake(ws: seq<Worker>) {
    exists i :: 0 <= i < |ws| && ws[i].Awake()
  }

  ghost predicate SomeLive(ws: seq<Worker>) {
    exists i :: 0 <= i < |ws| && !ws[i].Gone?
  }

  // The counters are right, the throttle holds, the run-slow message is linked exactly when it must
  // be, and no wakeup is lost: if there is work and a live worker, one is running or signalled.
  ghost predicate Scheduled(s: State) {
    && |s.workers| > 0
    && s.idle == IdleCount(s.workers)
    && s.slowRunning == SlowCount(s.workers)
    && s.slowRunning <= Threshold(s)
    && Occurrences(s.wq, RunSlow) <= 1
    && (s.slow != [] ==> Occurrences(s.wq, RunSlow) == 1)
    && (s.wq != [] && SomeLive(s.workers) ==> SomeAwake(s.workers))
  }

  lemma {:induction false} InitiallyScheduled(nthreads: nat)
    requires nthreads > 0
    ensures Scheduled(Initial(nthreads))
  {
    NoneCounted(nthreads);
    assert Initial(nthreads).workers[0].Awake();
  }

  lemma {:induction false} NoneCounted(n: nat)
    ensures var ws := seq(n, _ => AtTop); IdleCount(ws) == 0 && SlowCount(ws) == 0
  {
    if n > 0 {
      NoneCounted(n - 1);
      assert seq(n, _ => AtTop)[1..] == seq(n - 1, _ => AtTop);
    }
  }

  lemma {:induction false} NoneIdle(ws: seq<Worker>)
    requires IdleCount(ws) == 0
    ensures forall i :: 0 <= i < |ws| ==> !ws[i].Idle()
  {
    if ws != [] {
      NoneIdle(ws[1..]);
      forall i | 0 <= i < |ws| ensures !ws[i].Idle() {
        assert i == 0 || ws[i] == ws[1..][i - 1];
      }
    }
  }

  // Everything but the wakeup clause
  ghost predicate Counted(s: State) {
    && |s.workers| > 0
    && s.idle == IdleCount(s.workers)
    && s.slowRunning == SlowCount(s.workers)
    && s.slowRunning <= Threshold(s)
    && Occurrences(s.wq, RunSlow) <= 1
    && (s.slow != [] ==> Occurrences(s.wq, RunSlow) == 1)
  }

  // Whoever adds to the queue leaves a live worker awake
  lemma EnqueueWakes(s: State, m: Message, pick: nat)
    requires |s.workers| > 0 && s.idle == IdleCount(s.workers) && Picks(s, pick)
    ensures SomeLive(Enqueue(s, m, pick).workers) ==> SomeAwake(Enqueue(s, m, pick).workers)
    ensures IdleCount(Enqueue(s, m, pick).workers) == s.idle
    ensures SlowCount(Enqueue(s, m, pick).workers) == SlowCount(s.workers)
  {
    var s' := Enqueue(s, m, pick);
    if pick < |s.workers| {
      CountsAfter(s.workers, pick, Signalled);
    }
    if s.idle == 0 {
      NoneIdle(s.workers);
    }
    if i :| 0 <= i < |s'.workers| && !s'.workers[i].Gone? {
      if s'.workers[i].Waiting? {
        assert s.workers[i].Waiting?;
        assert s'.workers[pick].Awake();
      } else {
        assert s'.workers[i].Awake();
      }
    }
  }

  lemma SubmittingKeepsScheduled(s: State, id: nat, isSlow: bool, pick: nat)
    requires Scheduled(s) && Picks(s, pick)
    ensures Scheduled(Submit(s, id, isSlow, pick))
  {
    var s1 := s.(work := s.work[id := Callback]);
    OccurrencesIn(s.wq, RunSlow);
    if isSlow {
      OccurrencesAppended(s.wq, RunSlow, RunSlow);
      EnqueueWakes(s1.(slow := s.slow + [id]), RunSlow, pick);
    } else {
      OccurrencesAppended(s.wq, Item(id), RunSlow);
      EnqueueWakes(s1, Item(id), pick);
    }
  }

  lemma ExitingKeepsScheduled(s: State, pick: nat)
    requires Scheduled(s) && Picks(s, pick)
    ensures Scheduled(PostExit(s, pick))
  {
    OccurrencesAppended(s.wq, Exit, RunSlow);
    EnqueueWakes(s.(exiting := true), Exit, pick);
  }

  lemma WaitingKeepsScheduled(s: State, i: nat, pick: nat)
    requires Scheduled(s) && i < |s.workers| && s.workers[i].AtTop? && MustWait(s)
    ensures Scheduled(Look(s, i, pick))
  {
    CountsAfter(s.workers, i, Waiting);
    if s.wq != [] {
      var j := SlowWorkerExists(s.workers);
      assert Look(s, i, pick).workers[j].Awake();
    }
  }

  lemma TakingSlowKeepsScheduled(s: State, i: nat, pick: nat)
    requires Scheduled(s) && i < |s.workers| && s.workers[i].AtTop? && Picks(s, pick)
    requires s.wq != [] && s.wq[0] == RunSlow && s.slowRunning < Threshold(s) && s.slow != []
    ensures Scheduled(Look(s, i, pick))
  {
    var w := Taken(s.slow[0], true);
    CountsAfter(s.workers, i, w);
    var s1 := TakeSlow(s, i);
    assert s1.workers[i].Awake();
    assert Picks(s1, pick) by {
      assert forall k :: 0 <= k < |s.workers| && s1.workers[k].Waiting? ==> s.workers[k].Waiting?;
    }
    OccurrencesAppended(s1.wq, RunSlow, RunSlow);
    EnqueueWakes(s1, RunSlow, pick);
  }

  lemma LookingKeepsScheduled(s: State, i: nat, pick: nat)
    requires Scheduled(s) && i < |s.workers| && s.workers[i].AtTop? && Picks(s, pick)
    ensures Scheduled(Look(s, i, pick))
  {
    var s' := Look(s, i, pick);
    if MustWait(s) {
      WaitingKeepsScheduled(s, i, pick);
    } else {
      match s.wq[0]
      case Exit =>
        LeavingKeepsAwake(s, i, pick);
      case Item(id) =>
        CountsAfter(s.workers, i, Taken(id, false));
        assert s'.workers[i].Awake();
      case RunSlow =>
        if s.slowRunning >= Threshold(s) || s.slow == [] {
          OccurrencesAppended(s.wq[1..], RunSlow, RunSlow);
          assert s'.workers[i].Awake();
        } else {
          TakingSlowKeepsScheduled(s, i, pick);
        }
    }
  }

  lemma LeavingKeepsAwake(s: State, i: nat, pick: nat)
    requires Scheduled(s) && i < |s.workers| && s.workers[i].AtTop? && Picks(s, pick)
    requires s.wq != [] && s.wq[0] == Exit && !MustWait(s)
    ensures Scheduled(Look(s, i, pick))
  {
    var s' := Look(s, i, pick);
    var ws := Signal(s, pick).workers;
    if pick < |s.workers| {
      CountsAfter(s.workers, pick, Signalled);
    }
    CountsAfter(ws, i, Gone);
    if j :| 0 <= j < |s'.workers| && !s'.workers[j].Gone? {
      if s'.workers[j].Waiting? {
        assert s.workers[j].Waiting?;
        assert s'.workers[pick].Awake();
      } else {
        assert s'.workers[j].Awake();
      }
    }
  }

  // A worker's own moves leave it awake
  lemma MovingKeepsScheduled(s: State, i: nat, w: Worker, s': State)
    requires Scheduled(s) && i < |s.workers| && !s.workers[i].Gone? && w.Awake()
    requires s'.workers == s.workers[i := w] && s'.wq == s.wq && s'.slow == s.slow
    requires s'.idle == s.idle - (if s.workers[i].Idle() then 1 else 0) + (if w.Idle() then 1 else 0)
    requires s'.slowRunning == s.slowRunning - (if s.workers[i].Slow() then 1 else 0) + (if w.Slow() then 1 else 0)
    requires w.Slow() ==> s.workers[i].Slow()
    ensures Scheduled(s')
  {
    CountsAfter(s.workers, i, w);
    assert s'.workers[i].Awake();
  }

  lemma CancellingKeepsScheduled(s: State, id: nat)
    requires Scheduled(s) && id in s.work
    ensures Scheduled(TryCancel(s, id))
  {
    OccurrencesWithout(s.wq, Item(id), RunSlow);
    assert s.slow == [] ==> Without(s.slow, id) == [];
    assert s.wq == [] ==> Without(s.wq, Item(id)) == [];
  }

  lemma StepKeepsScheduled(s: State, step: Step)
    requires Scheduled(s) && Enabled(s, step)
    ensures Scheduled(Apply(s, step))
  {
    var s' := Apply(s, step);
    match step
    case Submitting(id, isSlow, pick) => SubmittingKeepsScheduled(s, id, isSlow, pick);
    case Exiting(pick) => ExitingKeepsScheduled(s, pick);
    case Looking(i, pick) => LookingKeepsScheduled(s, i, pick);
    case Waking(i) => MovingKeepsScheduled(s, i, s'.workers[i], s');
    case Reacquiring(i) => MovingKeepsScheduled(s, i, s'.workers[i], s');
    case Running(i) => MovingKeepsScheduled(s, i, s'.workers[i], s');
    case HandingOver(i) => MovingKeepsScheduled(s, i, s'.workers[i], s');
    case Relocking(i) => MovingKeepsScheduled(s, i, s'.workers[i], s');
    case Cancelling(id) => CancellingKeepsScheduled(s, id);
    case FinishingCancel =>
    case MovingDone =>
    case CallingDone =>
  }

  // ---------- conservation ----------

  function InHand(w: Worker, id: nat): nat {
    if w.Holding() && w.id == id then 1 else 0
  }

  function Hands(ws: seq<Worker>, id: nat): nat {
    if ws == [] then 0 else InHand(ws[0], id) + Hands(ws[1..], id)
  }

  lemma {:induction false} HandsAfter(ws: seq<Worker>, i: nat, w: Worker, id: nat)
    requires i < |ws|
    ensures InHand(ws[i], id) <= Hands(ws, id)
    ensures Hands(ws[i := w], id) == Hands(ws, id) - InHand(ws[i], id) + InHand(w, id)
  {
    if i == 0 {
      assert ws[i := w][1..] == ws[1..];
    } else {
      assert ws[i := w][1..] == ws[1..][i - 1 := w];
      HandsAfter(ws[1..], i - 1, w, id);
    }
  }

  // In how many places request id is: a queue, a worker's hands, the canceller's hands, or done
  function Places(s: State, id: nat): nat {
    Occurrences(s.wq, Item(id)) + Occurrences(s.slow, id) + Hands(s.workers, id) +
    Occurrences(s.loopQueue, id) + Occurrences(s.local, id) +
    (if s.cancelling == Some(id) then 1 else 0) + Occurrences(DoneIds(s.dones), id)
  }

  // Every submitted request is in exactly one place, and no other is anywhere
  ghost predicate Conserved(s: State) {
    forall id: nat :: Places(s, id) == if id in s.work then 1 else 0
  }

  lemma PlacesOfEnqueue(s: State, m: Message, pick: nat, x: nat)
    ensures Places(Enqueue(s, m, pick), x) == Places(s, x) + if m == Item(x) then 1 else 0
  {
    OccurrencesAppended(s.wq, m, Item(x));
    if pick < |s.workers| {
      HandsAfter(s.workers, pick, Signalled, x);
    }
  }

  lemma PlacesOfSubmit(s: State, id: nat, isSlow: bool, pick: nat, x: nat)
    ensures Places(Submit(s, id, isSlow, pick), x) == Places(s, x) + if id == x then 1 else 0
  {
    var s1 := s.(work := s.work[id := Callback]);
    if isSlow {
      OccurrencesAppended(s.slow, id, x);
      PlacesOfEnqueue(s1.(slow := s.slow + [id]), RunSlow, pick, x);
    } else {
      PlacesOfEnqueue(s1, Item(id), pick, x);
    }
  }

  lemma PlacesOfLeaving(s: State, i: nat, pick: nat, x: nat)
    requires i < |s.workers| && s.workers[i].AtTop?
    ensures Places(Leave(s, i, pick), x) == Places(s, x)
  {
    if pick < |s.workers| {
      HandsAfter(s.workers, pick, Signalled, x);
    }
    HandsAfter(Signal(s, pick).workers, i, Gone, x);
  }

  lemma PlacesOfTakingSlow(s: State, i: nat, pick: nat, x: nat)
    requires i < |s.workers| && s.workers[i].AtTop?
    requires s.wq != [] && s.wq[0] == RunSlow && s.slow != []
    ensures Places(TakeSlow(s, i), x) == Places(s, x)
    ensures Places(Enqueue(TakeSlow(s, i), RunSlow, pick), x) == Places(s, x)
  {
    HandsAfter(s.workers, i, Taken(s.slow[0], true), x);
    PlacesOfEnqueue(TakeSlow(s, i), RunSlow, pick, x);
  }

  lemma PlacesOfPassing(s: State, x: nat)
    requires s.wq != [] && s.wq[0] == RunSlow
    ensures Places(s.(wq := s.wq[1..]), x) == Places(s, x)
    ensures Places(s.(wq := s.wq[1..] + [RunSlow]), x) == Places(s, x)
  {
    OccurrencesAppended(s.wq[1..], RunSlow, Item(x));
  }

  lemma PlacesOfLook(s: State, i: nat, pick: nat, x: nat)
    requires i < |s.workers| && s.workers[i].AtTop?
    ensures Places(Look(s, i, pick), x) == Places(s, x)
  {
    if MustWait(s) {
      HandsAfter(s.workers, i, Waiting, x);
    } else {
      match s.wq[0]
      case Exit => PlacesOfLeaving(s, i, pick, x);
      case Item(id) => HandsAfter(s.workers, i, Taken(id, false), x);
      case RunSlow =>
        PlacesOfPassing(s, x);
        if s.slow != [] {
          PlacesOfTakingSlow(s, i, pick, x);
        }
    }
  }

  lemma PlacesOfCancel(s: State, id: nat, x: nat)
    requires Places(s, id) == 1 && id in s.work && s.cancelling.None?
    ensures Places(TryCancel(s, id), x) == Places(s, x)
  {
    OccurrencesWithout(s.wq, Item(id), Item(x));
    OccurrencesWithout(s.slow, id, x);
    OccurrencesWithout(s.loopQueue, id, x);
    OccurrencesWithout(s.local, id, x);
    OccurrencesIn(s.wq, Item(id));
    OccurrencesIn(s.slow, id);
    OccurrencesIn(s.loopQueue, id);
    OccurrencesIn(s.local, id);
  }

  lemma StepMovesRequests(s: State, step: Step, x: nat)
    requires Conserved(s) && Enabled(s, step)
    ensures Places(Apply(s, step), x) == Places(s, x) + if step.Submitting? && step.id == x then 1 else 0
  {
    var s' := Apply(s, step);
    match step
    case Submitting(id, isSlow, pick) => PlacesOfSubmit(s, id, isSlow, pick, x);
    case Exiting(pick) => PlacesOfEnqueue(s.(exiting := true), Exit, pick, x);
    case Looking(i, pick) => PlacesOfLook(s, i, pick, x);
    case Waking(i) => HandsAfter(s.workers, i, s'.workers[i], x);
    case Reacquiring(i) => HandsAfter(s.workers, i, s'.workers[i], x);
    case Running(i) => HandsAfter(s.workers, i, s'.workers[i], x);
    case HandingOver(i) =>
      HandsAfter(s.workers, i, s'.workers[i], x);
      OccurrencesAppended(s.loopQueue, s.workers[i].id, x);
    case Relocking(i) => HandsAfter(s.workers, i, s'.workers[i], x);
    case Cancelling(id) => PlacesOfCancel(s, id, x);
    case FinishingCancel => OccurrencesAppended(s.loopQueue, s.cancelling.value, x);
    case MovingDone =>
    case CallingDone =>
      assert s'.dones[..|s'.dones| - 1] == s.dones;
      OccurrencesAppended(DoneIds(s.dones), s.local[0], x);
  }

  // A step adds no request but the one it submits
  lemma StepKeepsRequests(s: State, step: Step)
    requires Conserved(s) && Enabled(s, step)
    ensures Apply(s, step).work.Keys == s.work.Keys + if step.Submitting? then {step.id} else {}
  {
    if step.HandingOver? {
      HandsAfter(s.workers, step.i, s.workers[step.i], s.workers[step.i].id);
      assert Places(s, s.workers[step.i].id) == 1;
    } else if step.FinishingCancel? {
      assert Places(s, s.cancelling.value) == 1;
    }
  }

  lemma StepKeepsConserved(s: State, step: Step)
    requires Conserved(s) && Enabled(s, step)
    ensures Conserved(Apply(s, step))
  {
    var s' := Apply(s, step);
    StepKeepsRequests(s, step);
    forall x: nat ensures Places(s', x) == if x in s'.work then 1 else 0 {
      StepMovesRequests(s, step, x);
    }
  }

  // ---------- running, cancelling, completing ----------

  // Nothing has happened to a request yet
  ghost predicate Untouched(s: State, id: nat) {
    id in s.work && s.work[id] == Callback && id !in s.runs && id !in s.cancels
  }

  // It has either run or been cancelled, and its work field tells which
  ghost predicate Settled(s: State, id: nat) {
    && id in s.work
    && ((s.work[id] == Null && id in s.runs && id !in s.cancels) ||
        (s.work[id] == Cancelled && id !in s.runs && id in s.cancels))
  }

  ghost predicate NoRepeats<T>(q: seq<T>) {
    forall i, j :: 0 <= i < j < |q| ==> q[i] != q[j]
  }

  ghost predicate Honest(s: State) {
    && NoRepeats(s.runs)
    && (forall id :: id in s.runs ==> id in s.work)
    && s.cancels <= s.work.Keys
    && (forall id :: id in s.cancels ==> id !in s.runs)
    && (forall id :: Item(id) in s.wq ==> Untouched(s, id))
    && (forall id :: id in s.slow ==> Untouched(s, id))
    && (forall i :: 0 <= i < |s.workers| && s.workers[i].Taken? ==> Untouched(s, s.workers[i].id))
    && (forall i :: 0 <= i < |s.workers| && s.workers[i].Ran? ==>
          s.workers[i].id in s.work && s.workers[i].id in s.runs && s.workers[i].id !in s.cancels)
    && (forall id :: id in s.loopQueue ==> Settled(s, id))
    && (forall id :: id in s.local ==> Settled(s, id))
    && (s.cancelling.Some? ==> s.cancelling.value in s.work && s.cancelling.value !in s.runs
                               && s.cancelling.value in s.cancels)
    && (forall k :: 0 <= k < |s.dones| ==>
          (s.dones[k].1 <==> s.dones[k].0 in s.cancels) && (s.dones[k].1 <==> s.dones[k].0 !in s.runs)
          && s.dones[k].0 in s.work)
  }

  lemma {:induction false} TwoHands(ws: seq<Worker>, i: nat, j: nat)
    requires i < j < |ws| && ws[i].Holding() && ws[j].Holding() && ws[i].id == ws[j].id
    ensures Hands(ws, ws[i].id) >= 2
  {
    if i == 0 {
      HandsAfter(ws[1..], j - 1, ws[j], ws[i].id);
    } else {
      TwoHands(ws[1..], i - 1, j - 1);
    }
  }

  lemma {:induction false} DoneIdsIn(dones: seq<(nat, bool)>, k: nat)
    requires k < |dones|
    ensures dones[k].0 in DoneIds(dones)
  {
    if k < |dones| - 1 {
      DoneIdsIn(dones[..|dones| - 1], k);
    }
  }

  // A request in a worker's hands is nowhere else
  lemma OnlyInHand(s: State, i: nat)
    requires Conserved(s) && i < |s.workers| && s.workers[i].Holding()
    ensures var id := s.workers[i].id;
            && Item(id) !in s.wq && id !in s.slow && id !in s.loopQueue && id !in s.local && s.cancelling != Some(id)
            && (forall j :: 0 <= j < |s.workers| && j != i && s.workers[j].Holding() ==> s.workers[j].id != id)
            && (forall k :: 0 <= k < |s.dones| ==> s.dones[k].0 != id)
  {
    var id := s.workers[i].id;
    assert Places(s, id) <= 1;
    HandsAfter(s.workers, i, s.workers[i], id);
    OccurrencesIn(s.wq, Item(id));
    OccurrencesIn(s.slow, id);
    OccurrencesIn(s.loopQueue, id);
    OccurrencesIn(s.local, id);
    OccurrencesIn(DoneIds(s.dones), id);
    forall j | 0 <= j < |s.workers| && j != i && s.workers[j].Holding() ensures s.workers[j].id != id {
      if s.workers[j].id == id {
        TwoHands(s.workers, if i < j then i else j, if i < j then j else i);
      }
    }
    forall k | 0 <= k < |s.dones| ensures s.dones[k].0 != id {
      DoneIdsIn(s.dones, k);
    }
  }

  lemma {:induction false} WithoutSubset<T>(q: seq<T>, y: T, x: T)
    ensures x in Without(q, y) ==> x in q
  {
    OccurrencesWithout(q, y, x);
    OccurrencesIn(q, x);
    OccurrencesIn(Without(q, y), x);
  }

  lemma EnqueueKeepsHonest(s: State, m: Message, pick: nat)
    requires Honest(s) && (m.Item? ==> Untouched(s, m.id))
    ensures Honest(Enqueue(s, m, pick))
  {
    var s' := Enqueue(s, m, pick);
    assert forall id :: Item(id) in s'.wq ==> Item(id) in s.wq || m == Item(id);
  }

  lemma SubmittingKeepsHonest(s: State, id: nat, isSlow: bool, pick: nat)
    requires Honest(s) && id !in s.work
    ensures Honest(Submit(s, id, isSlow, pick))
  {
    var s1 := s.(work := s.work[id := Callback]);
    if isSlow {
      EnqueueKeepsHonest(s1.(slow := s.slow + [id]), RunSlow, pick);
    } else {
      EnqueueKeepsHonest(s1, Item(id), pick);
    }
  }

  // Moves of workers that hold nothing, and counters, do not matter
  lemma EmptyHandedKeepsHonest(s: State, s': State)
    requires Honest(s) && s' == s.(workers := s'.workers, idle := s'.idle, slowRunning := s'.slowRunning)
    requires forall i :: 0 <= i < |s'.workers| && s'.workers[i].Holding() ==>
               i < |s.workers| && s'.workers[i] == s.workers[i]
    ensures Honest(s')
  {
  }

  lemma TakeSlowKeepsHonest(s: State, i: nat)
    requires Honest(s) && i < |s.workers| && s.wq != [] && s.slow != []
    ensures Honest(TakeSlow(s, i))
  {
    assert s.slow[0] in s.slow && forall id :: id in s.slow[1..] ==> id in s.slow;
    assert forall m :: m in s.wq[1..] ==> m in s.wq;
  }

  lemma TakingSlowKeepsHonest(s: State, i: nat, pick: nat)
    requires Honest(s) && i < |s.workers| && !MustWait(s)
    requires s.wq[0] == RunSlow && s.slow != [] && s.slowRunning < Threshold(s)
    ensures Honest(Look(s, i, pick))
  {
    TakeSlowKeepsHonest(s, i);
    EnqueueKeepsHonest(TakeSlow(s, i), RunSlow, pick);
  }

  lemma TakingKeepsHonest(s: State, i: nat, pick: nat)
    requires Honest(s) && i < |s.workers| && !MustWait(s) && s.wq[0].Item?
    ensures Honest(Look(s, i, pick))
  {
    assert s.wq[0] in s.wq;
  }

  lemma RotatingKeepsHonest(s: State, i: nat, pick: nat)
    requires Honest(s) && i < |s.workers| && !MustWait(s)
    requires s.wq[0] == RunSlow && (s.slow == [] || s.slowRunning >= Threshold(s))
    ensures Honest(Look(s, i, pick))
  {
    assert forall id :: Item(id) in s.wq[1..] + [RunSlow] ==> Item(id) in s.wq;
  }

  lemma LookingKeepsHonest(s: State, i: nat, pick: nat)
    requires Honest(s) && i < |s.workers|
    ensures Honest(Look(s, i, pick))
  {
    if MustWait(s) || s.wq[0] == Exit {
      EmptyHandedKeepsHonest(s, Look(s, i, pick));
    } else if s.wq[0].Item? {
      TakingKeepsHonest(s, i, pick);
    } else if s.slow == [] || s.slowRunning >= Threshold(s) {
      RotatingKeepsHonest(s, i, pick);
    } else {
      TakingSlowKeepsHonest(s, i, pick);
    }
  }

  lemma RunningKeepsHonest(s: State, i: nat)
    requires Honest(s) && Conserved(s) && i < |s.workers| && s.workers[i].Taken?
    ensures Honest(RunWork(s, i))
  {
    OnlyInHand(s, i);
    assert Untouched(s, s.workers[i].id);
  }

  lemma HandingOverKeepsHonest(s: State, i: nat)
    requires Honest(s) && Conserved(s) && i < |s.workers| && s.workers[i].Ran?
    ensures Honest(HandOver(s, i))
  {
    OnlyInHand(s, i);
  }

  lemma CancellingKeepsHonest(s: State, id: nat)
    requires Honest(s) && Conserved(s) && Enabled(s, Cancelling(id))
    ensures Honest(TryCancel(s, id))
  {
    if Cancellable(s, id) {
      var s' := TryCancel(s, id);
      assert Places(s, id) == 1;
      PlacesOfCancel(s, id, id);
      CancelledNowhereElse(s', id);
      forall x ensures Item(x) in s'.wq ==> Item(x) in s.wq { WithoutSubset(s.wq, Item(id), Item(x)); }
      forall x ensures x in s'.slow ==> x in s.slow { WithoutSubset(s.slow, id, x); }
      forall x ensures x in s'.loopQueue ==> x in s.loopQueue { WithoutSubset(s.loopQueue, id, x); }
      forall x ensures x in s'.local ==> x in s.local { WithoutSubset(s.local, id, x); }
    }
  }

  lemma CancelledNowhereElse(s: State, id: nat)
    requires Places(s, id) == 1 && s.cancelling == Some(id)
    ensures Item(id) !in s.wq && id !in s.slow && id !in s.loopQueue && id !in s.local
    ensures forall j :: 0 <= j < |s.workers| && s.workers[j].Holding() ==> s.workers[j].id != id
    ensures forall k :: 0 <= k < |s.dones| ==> s.dones[k].0 != id
  {
    OccurrencesIn(s.wq, Item(id));
    OccurrencesIn(s.slow, id);
    OccurrencesIn(s.loopQueue, id);
    OccurrencesIn(s.local, id);
    OccurrencesIn(DoneIds(s.dones), id);
    forall j | 0 <= j < |s.workers| && s.workers[j].Holding() ensures s.workers[j].id != id {
      HandsAfter(s.workers, j, s.workers[j], id);
    }
    forall k | 0 <= k < |s.dones| ensures s.dones[k].0 != id {
      DoneIdsIn(s.dones, k);
    }
  }

  lemma FinishingCancelKeepsHonest(s: State)
    requires Honest(s) && Conserved(s) && s.cancelling.Some?
    ensures Honest(FinishCancel(s))
  {
    assert Places(s, s.cancelling.value) == 1;
    CancelledNowhereElse(s, s.cancelling.value);
  }

  lemma MovingDoneKeepsHonest(s: State)
    requires Honest(s)
    ensures Honest(MoveDone(s))
  {
  }

  lemma CallingDoneKeepsHonest(s: State)
    requires Honest(s) && s.local != [] && s.local[0] in s.work
    ensures Honest(CallDone(s))
  {
    assert s.local[0] in s.local && forall id :: id in s.local[1..] ==> id in s.local;
  }

  lemma StepKeepsHonest(s: State, step: Step)
    requires Honest(s) && Conserved(s) && Enabled(s, step)
    ensures Honest(Apply(s, step))
  {
    match step
    case Submitting(id, isSlow, pick) => SubmittingKeepsHonest(s, id, isSlow, pick);
    case Exiting(pick) => EnqueueKeepsHonest(s.(exiting := true), Exit, pick);
    case Looking(i, pick) => LookingKeepsHonest(s, i, pick);
    case Waking(_) => EmptyHandedKeepsHonest(s, Apply(s, step));
    case Reacquiring(_) => EmptyHandedKeepsHonest(s, Apply(s, step));
    case Running(i) => RunningKeepsHonest(s, i);
    case HandingOver(i) => HandingOverKeepsHonest(s, i);
    case Relocking(_) => EmptyHandedKeepsHonest(s, Apply(s, step));
    case Cancelling(id) => CancellingKeepsHonest(s, id);
    case FinishingCancel => FinishingCancelKeepsHonest(s);
    case MovingDone => MovingDoneKeepsHonest(s);
    case CallingDone => CallingDoneKeepsHonest(s);
  }

  // ---------- whole runs ----------

  ghost predicate Possible(s: State, steps: seq<Step>)
    decreases steps
  {
    steps == [] || (Enabled(s, steps[0]) && Possible(Apply(s, steps[0]), steps[1..]))
  }

  ghost function After(s: State, steps: seq<Step>): State
    requires Possible(s, steps)
    decreases steps
  {
    if steps == [] then s else After(Apply(s, steps[0]), steps[1..])
  }

  ghost predicate Good(s: State) {
    Scheduled(s) && Conserved(s) && Honest(s)
  }

  lemma {:induction false} RunKeepsGood(s: State, steps: seq<Step>)
    requires Good(s) && Possible(s, steps)
    ensures Good(After(s, steps))
    decreases steps
  {
    if steps != [] {
      StepKeepsScheduled(s, steps[0]);
      StepKeepsConserved(s, steps[0]);
      StepKeepsHonest(s, steps[0]);
      RunKeepsGood(Apply(s, steps[0]), steps[1..]);
    }
  }

  lemma {:induction false} NoRepeatsWhenCounted<T>(q: seq<T>)
    requires forall x :: x in q ==> Occurrences(q, x) <= 1
    ensures NoRepeats(q)
  {
    if q != [] {
      forall x | x in q[1..] ensures Occurrences(q[1..], x) <= 1 && x != q[0] {
        OccurrencesIn(q[1..], x);
        assert x in q && q[0] in q;
      }
      NoRepeatsWhenCounted(q[1..]);
      forall i, j | 0 <= i < j < |q| ensures q[i] != q[j] {
        assert q[j] == q[1..][j - 1] && q[j] in q[1..];
        assert i > 0 ==> q[i] == q[1..][i - 1];
      }
    }
  }

  lemma {:induction false} NobodyHolds(ws: seq<Worker>, id: nat)
    requires forall i :: 0 <= i < |ws| ==> !ws[i].Holding()
    ensures Hands(ws, id) == 0
  {
    if ws != [] {
      NobodyHolds(ws[1..], id);
    }
  }

  // Every run: the throttle, the queues and the wakeups are right, each submitted request is in
  // exactly one place, its work runs at most once and its done callback too, done gets ECANCELED
  // exactly when a cancel returned 0, and then the work never runs.
  lemma EveryRun(nthreads: nat, steps: seq<Step>)
    requires nthreads > 0 && Possible(Initial(nthreads), steps)
    ensures var s := After(Initial(nthreads), steps);
            && Scheduled(s) && Conserved(s)
            && NoRepeats(s.runs) && NoRepeats(DoneIds(s.dones))
            && (forall k :: 0 <= k < |s.dones| ==> (s.dones[k].1 <==> s.dones[k].0 in s.cancels))
            && (forall id :: id in s.cancels ==> id !in s.runs)
  {
    var s0 := Initial(nthreads);
    InitiallyScheduled(nthreads);
    forall id: nat ensures Places(s0, id) == 0 {
      NobodyHolds(s0.workers, id);
    }
    RunKeepsGood(s0, steps);
    var s := After(s0, steps);
    forall id | id in DoneIds(s.dones) ensures Occurrences(DoneIds(s.dones), id) <= 1 {
      assert Places(s, id) <= 1;
    }
    NoRepeatsWhenCounted(DoneIds(s.dones));
  }
}
