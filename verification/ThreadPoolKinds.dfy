// What the thread pool owes to the kind a request was submitted as: slow requests are throttled, the others are
// not, and requests of one kind start in the order they were submitted in.
module ThreadPoolKinds {
  import opened Options
  import opened ThreadPool
  import opened ThreadPoolProofs

  // What a submission asked for, and how many came before it
  datatype Submission = Submission(isSlow: bool, rank: nat)

  type History = map<nat, Submission>

  function Noted(h: History, step: Step): History {
    if step.Submitting? then h[step.id := Submission(step.isSlow, |h|)] else h
  }

  function HistoryOf(h: History, steps: seq<Step>): History
    decreases steps
  {
    if steps == [] then h else HistoryOf(Noted(h, steps[0]), steps[1..])
  }

  ghost predicate IsKind(h: History, id: nat, isSlow: bool) {
    id in h && h[id].isSlow == isSlow
  }

  ghost predicate Earlier(h: History, a: nat, b: nat) {
    a in h && b in h && h[a].rank < h[b].rank
  }

  // The requests linked in the work queue
  function Items(q: seq<Message>): seq<nat> {
    if q == [] then [] else (if q[0].Item? then [q[0].id] else []) + Items(q[1..])
  }

  // Requests that wait are of their queue's kind, and whoever has a request knows its kind
  ghost predicate AllOfKind(h: History, q: seq<nat>, isSlow: bool) {
    forall id :: id in q ==> IsKind(h, id, isSlow)
  }

  ghost predicate HeldAs(h: History, ws: seq<Worker>) {
    forall i :: 0 <= i < |ws| && ws[i].Holding() ==> IsKind(h, ws[i].id, ws[i].slow)
  }

  ghost predicate Ranked(h: History) {
    forall id :: id in h ==> h[id].rank < |h|
  }

  ghost predicate Kinded(s: State, h: History) {
    && h.Keys == s.work.Keys && Ranked(h)
    && AllOfKind(h, Items(s.wq), false) && AllOfKind(h, s.slow, true)
    && HeldAs(h, s.workers)
  }

  ghost function Held(ws: seq<Worker>): set<nat> {
    set i | 0 <= i < |ws| && ws[i].Holding() :: ws[i].id
  }

  ghost function Started(s: State): set<nat> {
    (set id | id in s.runs) + Held(s.workers)
  }

  ghost predicate Increasing(h: History, q: seq<nat>) {
    q == [] || ((forall id :: id in q[1..] ==> Earlier(h, q[0], id)) && Increasing(h, q[1..]))
  }

  // A queue is in the order of submission, and nothing of its kind that has started overtook what waits
  ghost predicate InLine(h: History, q: seq<nat>, started: set<nat>, isSlow: bool) {
    Increasing(h, q) && forall a, b :: a in started && IsKind(h, a, isSlow) && b in q ==> Earlier(h, a, b)
  }

  ghost predicate InOrder(s: State, h: History) {
    && InLine(h, Items(s.wq), Started(s), false) && InLine(h, s.slow, Started(s), true)
    && Started(s) <= h.Keys
  }

  // ---- Queues ----

  lemma {:induction false} ItemsIn(q: seq<Message>, id: nat)
    ensures Item(id) in q <==> id in Items(q)
  {
    if q != [] {
      ItemsIn(q[1..], id);
      assert q == [q[0]] + q[1..];
    }
  }

  lemma {:induction false} ItemsAppended(q: seq<Message>, m: Message)
    ensures Items(q + [m]) == Items(q) + if m.Item? then [m.id] else []
  {
    if q == [] {
      assert q + [m] == [m];
    } else {
      ItemsAppended(q[1..], m);
      assert (q + [m])[0] == q[0] && (q + [m])[1..] == q[1..] + [m];
    }
  }

  lemma {:induction false} ItemsWithout(q: seq<Message>, id: nat)
    ensures Items(Without(q, Item(id))) == Without(Items(q), id)
  {
    if q != [] {
      var rest := Items(q[1..]);
      ItemsWithout(q[1..], id);
      if q[0] == Item(id) {
        assert Items(q) == [id] + rest && Items(q)[1..] == rest;
      } else {
        var r := Without(q[1..], Item(id));
        assert Without(q, Item(id)) == [q[0]] + r && ([q[0]] + r)[0] == q[0] && ([q[0]] + r)[1..] == r;
        if q[0].Item? {
          assert Items(q) == [q[0].id] + rest && Items(q)[0] == q[0].id && Items(q)[1..] == rest;
        } else {
          assert Items(q) == [] + rest == rest;
        }
      }
    }
  }

  lemma {:induction false} WithoutIn(q: seq<nat>, x: nat, y: nat)
    requires y in Without(q, x)
    ensures y in q
  {
    if q[0] != x && y != q[0] {
      WithoutIn(q[1..], x, y);
    }
  }

  lemma {:induction false} WithoutIncreasing(h: History, q: seq<nat>, x: nat)
    requires Increasing(h, q)
    ensures Increasing(h, Without(q, x))
  {
    if q != [] && q[0] != x {
      WithoutIncreasing(h, q[1..], x);
      var rest := Without(q[1..], x);
      assert Without(q, x)[1..] == rest;
      forall id | id in rest ensures Earlier(h, q[0], id) {
        WithoutIn(q[1..], x, id);
      }
    }
  }

  lemma {:induction false} AppendIncreasing(h: History, q: seq<nat>, id: nat)
    requires Increasing(h, q) && forall x :: x in q ==> Earlier(h, x, id)
    ensures Increasing(h, q + [id])
  {
    if q == [] {
      assert q + [id] == [id];
    } else {
      AppendIncreasing(h, q[1..], id);
      assert (q + [id])[0] == q[0] && (q + [id])[1..] == q[1..] + [id];
    }
  }

  lemma {:induction false} IncreasingAgree(h: History, h': History, q: seq<nat>)
    requires Increasing(h, q) && forall id :: id in h ==> id in h' && h'[id] == h[id]
    ensures Increasing(h', q)
  {
    if q != [] {
      IncreasingAgree(h, h', q[1..]);
    }
  }

  lemma CancelledInLine(h: History, q: seq<nat>, started: set<nat>, isSlow: bool, x: nat)
    requires InLine(h, q, started, isSlow)
    ensures InLine(h, Without(q, x), started, isSlow)
  {
    WithoutIncreasing(h, q, x);
    forall b | b in Without(q, x) ensures b in q {
      WithoutIn(q, x, b);
    }
  }

  lemma TakenInLine(h: History, q: seq<nat>, started: set<nat>, isSlow: bool)
    requires InLine(h, q, started, isSlow) && q != []
    ensures InLine(h, q[1..], started + {q[0]}, isSlow)
  {
  }

  lemma SubmittedInLine(h: History, h': History, q: seq<nat>, started: set<nat>, isSlow: bool, id: nat)
    requires InLine(h, q, started, isSlow) && AllOfKind(h, q, isSlow) && Ranked(h) && id !in h
    requires h' == h[id := Submission(isSlow, |h|)] && started <= h.Keys
    ensures InLine(h', q + [id], started, isSlow)
  {
    IncreasingAgree(h, h', q);
    AppendIncreasing(h', q, id);
  }

  lemma OtherInLine(h: History, h': History, q: seq<nat>, started: set<nat>, isSlow: bool, id: nat)
    requires InLine(h, q, started, isSlow) && AllOfKind(h, q, isSlow) && id !in h && started <= h.Keys
    requires h' == h[id := Submission(!isSlow, |h|)]
    ensures InLine(h', q, started, isSlow)
  {
    IncreasingAgree(h, h', q);
  }

  // ---- Steps ----

  lemma SignalHeld(s: State, pick: nat, h: History)
    ensures Held(Signal(s, pick).workers) == Held(s.workers)
    ensures HeldAs(h, s.workers) ==> HeldAs(h, Signal(s, pick).workers)
  {
    forall id ensures id in Held(Signal(s, pick).workers) <==> id in Held(s.workers) {
      if i :| 0 <= i < |s.workers| && s.workers[i].Holding() && s.workers[i].id == id {
        assert Signal(s, pick).workers[i] == s.workers[i];
      }
    }
  }

  ghost predicate Owed(s: State, h: History) {
    Kinded(s, h) && InOrder(s, h)
  }

  // Neither queue changes, and nothing new is held
  lemma QuietOwed(s: State, s': State, h: History)
    requires Owed(s, h) && s'.work.Keys == s.work.Keys
    requires Items(s'.wq) == Items(s.wq) && s'.slow == s.slow && HeldAs(h, s'.workers) && Started(s') <= Started(s)
    ensures Owed(s', h)
  {
  }

  // A message without a request
  lemma EnqueueOwed(s: State, h: History, m: Message, pick: nat)
    requires Owed(s, h) && !m.Item?
    ensures Owed(Enqueue(s, m, pick), h)
  {
    ItemsAppended(s.wq, m);
    SignalHeld(s.(wq := s.wq + [m]), pick, h);
    assert Items(s.wq) + [] == Items(s.wq);
    QuietOwed(s, Enqueue(s, m, pick), h);
  }

  lemma NotedSize(h: History, step: Step)
    requires step.Submitting? ==> step.id !in h
    ensures |Noted(h, step)| == |h| + if step.Submitting? then 1 else 0
  {
    if step.Submitting? {
      assert Noted(h, step).Keys == h.Keys + {step.id};
      assert |h.Keys| == |h| && |Noted(h, step).Keys| == |Noted(h, step)|;
    }
  }

  lemma SubmitFastOwed(s: State, h: History, id: nat, pick: nat)
    requires Owed(s, h) && id !in h
    ensures Owed(Submit(s, id, false, pick), h[id := Submission(false, |h|)])
  {
    var h', s1 := h[id := Submission(false, |h|)], s.(work := s.work[id := Callback], wq := s.wq + [Item(id)]);
    NotedSize(h, Submitting(id, false, pick));
    ItemsAppended(s.wq, Item(id));
    SubmittedInLine(h, h', Items(s.wq), Started(s), false, id);
    OtherInLine(h, h', s.slow, Started(s), true, id);
    assert HeldAs(h', s.workers) && Owed(s1, h');
    SignalOwed(s1, h', pick);
  }

  lemma SignalOwed(s: State, h: History, pick: nat)
    requires Owed(s, h)
    ensures Owed(Signal(s, pick), h)
  {
    SignalHeld(s, pick, h);
    QuietOwed(s, Signal(s, pick), h);
  }

  lemma SubmitSlowOwed(s: State, h: History, id: nat, pick: nat)
    requires Owed(s, h) && id !in h
    ensures Owed(Submit(s, id, true, pick), h[id := Submission(true, |h|)])
  {
    var h', s1 := h[id := Submission(true, |h|)], s.(work := s.work[id := Callback], slow := s.slow + [id]);
    NotedSize(h, Submitting(id, true, pick));
    SubmittedInLine(h, h', s.slow, Started(s), true, id);
    OtherInLine(h, h', Items(s.wq), Started(s), false, id);
    assert HeldAs(h', s.workers) && Owed(s1, h');
    if RunSlow !in s.wq {
      EnqueueOwed(s1, h', RunSlow, pick);
    }
  }

  lemma HeldAfter(ws: seq<Worker>, i: nat, w: Worker, h: History)
    requires i < |ws| && HeldAs(h, ws) && (w.Holding() ==> IsKind(h, w.id, w.slow))
    ensures HeldAs(h, ws[i := w])
    ensures Held(ws[i := w]) <= Held(ws) + if w.Holding() then {w.id} else {}
  {
  }

  lemma TakeFastOwed(s: State, h: History, i: nat)
    requires Owed(s, h) && i < |s.workers| && s.wq != [] && s.wq[0].Item?
    ensures Owed(s.(wq := s.wq[1..], workers := s.workers[i := Taken(s.wq[0].id, false)]), h)
  {
    var id := s.wq[0].id;
    var s' := s.(wq := s.wq[1..], workers := s.workers[i := Taken(id, false)]);
    assert Items(s.wq) == [id] + Items(s.wq[1..]) && Items(s.wq)[1..] == Items(s'.wq);
    HeldAfter(s.workers, i, Taken(id, false), h);
    TakenInLine(h, Items(s.wq), Started(s), false);
    assert Started(s') <= Started(s) + {id};
  }

  lemma TakeSlowOwed(s: State, h: History, i: nat)
    requires Owed(s, h) && i < |s.workers| && s.wq != [] && s.wq[0].RunSlow? && s.slow != []
    ensures Owed(TakeSlow(s, i), h)
  {
    var id, s' := s.slow[0], TakeSlow(s, i);
    assert Items(s.wq) == Items(s.wq[1..]);
    HeldAfter(s.workers, i, Taken(id, true), h);
    TakenInLine(h, s.slow, Started(s), true);
    assert Started(s') <= Started(s) + {id};
  }

  lemma LookOwed(s: State, h: History, i: nat, pick: nat)
    requires Owed(s, h) && i < |s.workers|
    ensures Owed(Look(s, i, pick), h)
  {
    if MustWait(s) {
      HeldAfter(s.workers, i, Waiting, h);
      QuietOwed(s, Look(s, i, pick), h);
    } else {
      match s.wq[0]
      case Exit =>
        SignalHeld(s, pick, h);
        HeldAfter(Signal(s, pick).workers, i, Gone, h);
        QuietOwed(s, Look(s, i, pick), h);
      case Item(id) => TakeFastOwed(s, h, i);
      case RunSlow => LookSlowOwed(s, h, i, pick);
    }
  }

  lemma LookSlowOwed(s: State, h: History, i: nat, pick: nat)
    requires Owed(s, h) && i < |s.workers| && !MustWait(s) && s.wq[0].RunSlow?
    ensures Owed(Look(s, i, pick), h)
  {
    assert Items(s.wq) == Items(s.wq[1..]);
    ItemsAppended(s.wq[1..], RunSlow);
    if s.slowRunning >= Threshold(s) || s.slow == [] {
      assert Items(s.wq[1..]) + [] == Items(s.wq[1..]);
      QuietOwed(s, Look(s, i, pick), h);
    } else {
      TakeSlowOwed(s, h, i);
      if TakeSlow(s, i).slow != [] {
        EnqueueOwed(TakeSlow(s, i), h, RunSlow, pick);
      }
    }
  }

  lemma CancelOwed(s: State, h: History, id: nat)
    requires Owed(s, h) && id in s.work
    ensures Owed(TryCancel(s, id), h)
  {
    ItemsWithout(s.wq, id);
    CancelledInLine(h, Items(s.wq), Started(s), false, id);
    CancelledInLine(h, s.slow, Started(s), true, id);
    forall x | x in Without(s.slow, id) ensures x in s.slow {
      WithoutIn(s.slow, id, x);
    }
    forall x | x in Without(Items(s.wq), id) ensures x in Items(s.wq) {
      WithoutIn(Items(s.wq), id, x);
    }
  }

  // A step of a worker that neither takes anything nor leaves the queues changed
  lemma WorkerOwed(s: State, h: History, step: Step)
    requires Owed(s, h) && Enabled(s, step)
    requires step.Waking? || step.Reacquiring? || step.Running? || step.HandingOver? || step.Relocking?
    ensures Owed(Apply(s, step), h)
  {
    var i := step.i;
    var s' := Apply(s, step);
    assert s.workers[i].Holding() ==> s.workers[i].id in Held(s.workers);
    HeldAfter(s.workers, i, s'.workers[i], h);
    QuietOwed(s, s', h);
  }

  lemma CancellingKnown(s: State)
    requires Conserved(s) && s.cancelling.Some?
    ensures s.cancelling.value in s.work
  {
    assert Places(s, s.cancelling.value) >= 1;
  }

  lemma StepOwed(s: State, h: History, step: Step)
    requires Owed(s, h) && Conserved(s) && Enabled(s, step)
    ensures Owed(Apply(s, step), Noted(h, step))
  {
    match step
    case Submitting(id, isSlow, pick) => if isSlow { SubmitSlowOwed(s, h, id, pick); } else { SubmitFastOwed(s, h, id, pick); }
    case Exiting(pick) =>
      QuietOwed(s, s.(exiting := true), h);
      EnqueueOwed(s.(exiting := true), h, Exit, pick);
    case Looking(i, pick) => LookOwed(s, h, i, pick);
    case Cancelling(id) => CancelOwed(s, h, id);
    case FinishingCancel =>
      CancellingKnown(s);
      QuietOwed(s, FinishCancel(s), h);
    case MovingDone => QuietOwed(s, MoveDone(s), h);
    case CallingDone => QuietOwed(s, CallDone(s), h);
    case _ => WorkerOwed(s, h, step);
  }

  // ---- Runs ----

  // The history has each submission of the run, as it was made and in its order
  ghost predicate Records(steps: seq<Step>, h: History) {
    && (forall k :: 0 <= k < |steps| && steps[k].Submitting? ==> IsKind(h, steps[k].id, steps[k].isSlow))
    && (forall k, l :: 0 <= k < l < |steps| && steps[k].Submitting? && steps[l].Submitting? ==> Earlier(h, steps[k].id, steps[l].id))
  }

  ghost predicate Extends(h: History, h': History) {
    forall id :: id in h ==> id in h' && h'[id] == h[id]
  }

  // What the rest of a run adds to the history
  lemma RecordsNext(steps: seq<Step>, h: History, h1: History, h': History)
    requires steps != [] && h1 == Noted(h, steps[0]) && Extends(h1, h') && Records(steps[1..], h')
    requires |h1| == |h| + if steps[0].Submitting? then 1 else 0
    requires forall k :: 0 <= k < |steps[1..]| && steps[1..][k].Submitting? ==>
               steps[1..][k].id in h' && h'[steps[1..][k].id].rank >= |h1|
    ensures Records(steps, h')
    ensures forall k :: 0 <= k < |steps| && steps[k].Submitting? ==> steps[k].id in h' && h'[steps[k].id].rank >= |h|
  {
    assert forall k :: 0 < k < |steps| ==> steps[k] == steps[1..][k - 1];
  }

  lemma {:induction false} RunOwed(s: State, h: History, steps: seq<Step>)
    requires Good(s) && Owed(s, h) && Possible(s, steps)
    ensures Good(After(s, steps)) && Owed(After(s, steps), HistoryOf(h, steps))
    ensures Records(steps, HistoryOf(h, steps)) && Extends(h, HistoryOf(h, steps))
    ensures forall k :: 0 <= k < |steps| && steps[k].Submitting? ==>
              steps[k].id in HistoryOf(h, steps) && HistoryOf(h, steps)[steps[k].id].rank >= |h|
    decreases steps
  {
    if steps != [] {
      var s1, h1, h' := Apply(s, steps[0]), Noted(h, steps[0]), HistoryOf(h, steps);
      FirstOwed(s, h, steps[0], s1, h1);
      RunOwed(s1, h1, steps[1..]);
      RecordsNext(steps, h, h1, h');
    }
  }

  lemma FirstOwed(s: State, h: History, step: Step, s1: State, h1: History)
    requires Good(s) && Owed(s, h) && Enabled(s, step) && s1 == Apply(s, step) && h1 == Noted(h, step)
    ensures Good(s1) && Owed(s1, h1) && Extends(h, h1)
    ensures |h1| == |h| + if step.Submitting? then 1 else 0
    ensures step.Submitting? ==> h1[step.id].rank == |h| && h1[step.id].isSlow == step.isSlow
  {
    StepGood(s, step);
    StepOwed(s, h, step);
    NotedSize(h, step);
  }

  lemma StepGood(s: State, step: Step)
    requires Good(s) && Enabled(s, step)
    ensures Good(Apply(s, step))
  {
    StepKeepsScheduled(s, step);
    StepKeepsConserved(s, step);
    StepKeepsHonest(s, step);
  }

  lemma {:induction false} SameWorkers(s: State, steps: seq<Step>)
    requires Possible(s, steps)
    ensures |After(s, steps).workers| == |s.workers|
    decreases steps
  {
    if steps != [] {
      SameWorkers(Apply(s, steps[0]), steps[1..]);
    }
  }

  // The number of workers at a request that was submitted as slow
  function AtSlow(ws: seq<Worker>, h: History): nat {
    if ws == [] then 0
    else (if ws[0].Holding() && ws[0].id in h && h[ws[0].id].isSlow then 1 else 0) + AtSlow(ws[1..], h)
  }

  lemma {:induction false} AtSlowCounted(ws: seq<Worker>, h: History)
    requires HeldAs(h, ws)
    ensures AtSlow(ws, h) <= SlowCount(ws)
  {
    if ws != [] {
      assert forall i :: 0 <= i < |ws[1..]| ==> ws[1..][i] == ws[i + 1];
      assert ws[0].Holding() ==> IsKind(h, ws[0].id, ws[0].slow);
      AtSlowCounted(ws[1..], h);
    }
  }

  lemma WaitsIfMust(s: State, i: nat, pick: nat)
    requires i < |s.workers| && s.workers[i].AtTop? && Look(s, i, pick).workers[i].Waiting?
    ensures MustWait(s)
  {
  }

  // A worker that looks and waits leaves no request behind but slow ones, and these only while at least
  // (nthreads + 1) / 2 workers are at slow work
  lemma WaitsForGoodReason(s: State, i: nat, pick: nat)
    requires Good(s) && i < |s.workers| && s.workers[i].AtTop? && Look(s, i, pick).workers[i].Waiting?
    ensures forall id :: Item(id) !in s.wq
    ensures s.slow != [] ==> 2 * SlowCount(s.workers) >= |s.workers|
  {
    WaitsIfMust(s, i, pick);
    OccurrencesIn(s.wq, RunSlow);
  }

  lemma {:induction false} HandsHeld(ws: seq<Worker>, id: nat)
    ensures Hands(ws, id) > 0 <==> id in Held(ws)
  {
    if ws != [] {
      HandsHeld(ws[1..], id);
      assert forall i :: 0 <= i < |ws[1..]| ==> ws[1..][i] == ws[i + 1];
      if id in Held(ws[1..]) {
        var i :| 0 <= i < |ws[1..]| && ws[1..][i].Holding() && ws[1..][i].id == id;
        assert ws[i + 1].Holding() && ws[i + 1].id == id;
      }
    }
  }

  // A request that is not done can be cancelled exactly as long as no worker has taken it
  lemma CancelsExactly(s: State, id: nat)
    requires Good(s) && id in s.work && s.cancelling.None? && !Finished(s, id)
    ensures Cancellable(s, id) <==> id !in Started(s)
  {
    OccurrencesIn(s.wq, Item(id));
    OccurrencesIn(s.slow, id);
    OccurrencesIn(s.loopQueue, id);
    OccurrencesIn(s.local, id);
    OccurrencesIn(DoneIds(s.dones), id);
    HandsHeld(s.workers, id);
    assert Places(s, id) == 1;
  }

  // In every run: at most half of the workers, rounded up, are at requests submitted as slow; slow requests wait
  // in the slow queue and the others in the work queue; and no request starts before one of its kind that was
  // submitted earlier and still waits
  lemma EveryRun(nthreads: nat, steps: seq<Step>)
    requires nthreads > 0 && Possible(Initial(nthreads), steps)
    ensures var s, h := After(Initial(nthreads), steps), HistoryOf(map[], steps);
            && Records(steps, h)
            && (forall id :: Item(id) in s.wq ==> IsKind(h, id, false))
            && (forall id :: id in s.slow ==> IsKind(h, id, true))
            && HeldAs(h, s.workers) && 2 * AtSlow(s.workers, h) <= nthreads + 1
            && (forall a, b :: a in Started(s) && IsKind(h, a, false) && Item(b) in s.wq ==> Earlier(h, a, b))
            && (forall a, b :: a in Started(s) && IsKind(h, a, true) && b in s.slow ==> Earlier(h, a, b))
  {
    var s0 := Initial(nthreads);
    InitiallyScheduled(nthreads);
    forall id: nat ensures Places(s0, id) == 0 {
      NobodyHolds(s0.workers, id);
    }
    assert Started(s0) == {};
    RunOwed(s0, map[], steps);
    SameWorkers(s0, steps);
    var s, h := After(s0, steps), HistoryOf(map[], steps);
    AtSlowCounted(s.workers, h);
    forall id ensures Item(id) in s.wq <==> id in Items(s.wq) {
      ItemsIn(s.wq, id);
    }
  }
}
