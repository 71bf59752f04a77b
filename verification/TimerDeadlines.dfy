// When timers are due, counted from the times they were started at, and how long the loop may sleep.
module TimerDeadlines {
  import opened TimerHeap
  import opened Timers

  // The loop's time moves on
  function At(l: Loop, time: nat): Loop {
    l.(time := time)
  }

  // A timer set at one time for this much later; times past the largest 64-bit value come to that value
  predicate Elapsed(since: nat, delay: nat, time: nat) {
    if since + delay <= UINT64_MAX then time >= since + delay else time >= UINT64_MAX
  }

  // A started timer is due once its timeout has elapsed, and not before
  lemma StartedIsDue(l: Loop, id: nat, timeout: nat, repeat: nat, time: nat)
    ensures id in Due(At(Start(l, id, timeout, repeat), time)) <==> Elapsed(l.time, timeout, time)
  {
    var l' := Start(l, id, timeout, repeat);
    assert id in At(l', time).timers && l'.timers[id].active;
  }

  // One that is started again by hand, once its repeat has
  lemma AgainIsDue(l: Loop, id: nat, time: nat)
    requires id in l.timers && l.timers[id].hasCallback && l.timers[id].repeat > 0
    ensures id in Due(At(Again(l, id), time)) <==> Elapsed(l.time, l.timers[id].repeat, time)
  {
    StartedIsDue(l, id, l.timers[id].repeat, l.timers[id].repeat, time);
  }

  // After it has fired it is due once its repeat has elapsed since then, or never if it does not repeat
  lemma FiredIsDue(l: Loop, id: nat, timeout: nat, repeat: nat, fired: nat, time: nat)
    ensures id in Due(At(Fired(At(Start(l, id, timeout, repeat), fired), id), time)) <==> repeat > 0 && Elapsed(fired, repeat, time)
  {
    var l' := At(Start(l, id, timeout, repeat), fired);
    if repeat > 0 {
      AgainIsDue(Stop(l', id), id, time);
    } else {
      assert Fired(l', id) == Stop(l', id);
    }
  }

  // A stopped timer is not due at any time
  lemma StoppedIsNotDue(l: Loop, id: nat, time: nat)
    requires id in l.timers
    ensures id !in Due(At(Stop(l, id), time))
  {
    assert !At(Stop(l, id), time).timers[id].active;
  }

  // What a call does to one timer it does not do to another
  lemma OthersStay(l: Loop, act: Action, other: nat, time: nat)
    requires other in l.timers && act.id != other
    ensures other in Due(At(Perform(l, act), time)) <==> other in Due(At(l, time))
  {
  }

  // Of two timers due at the same time the one that was started first fires first
  lemma StartedFirst(l: Loop, a: nat, b: nat, timeout: nat, repeat: nat)
    requires Counted(l) && a in Active(l) && a != b
    ensures var l' := Start(l, b, timeout, repeat);
            a in Active(l') && (l'.timers[a].timeout == l'.timers[b].timeout ==> !IsFirst(l', b))
  {
    var l' := Start(l, b, timeout, repeat);
    assert a in Active(l') && l'.timers[a] == l.timers[a];
  }

  // A pass fires timers by deadline, and those of one deadline in the order they were started in
  lemma FiresInOrder(l0: Loop, l: Loop, fired: seq<nat>, i: nat, j: nat)
    requires Passing(l0, l, fired) && i < j < |fired|
    ensures fired[i] in l0.timers && fired[j] in l0.timers
    ensures var s, t := l0.timers[fired[i]], l0.timers[fired[j]];
            s.timeout < t.timeout || (s.timeout == t.timeout && s.startId < t.startId)
  {
    assert fired[i] in Due(l0) && fired[j] in Due(l0);
  }

  function Lesser(a: int, b: int): int {
    if a < b then a else b
  }

  // With one timer the loop sleeps until it is due, but no longer than the largest C int
  method StartAlone(loop: TimerLoop, id: nat, timeout: nat, repeat: nat) returns (wait: int)
    requires loop.Valid() && id in loop.timers && Active(loop.View()) <= {id} && loop.time <= UINT64_MAX
    modifies loop, loop.heap, loop.heap.members
    ensures loop.Valid()
    ensures wait == Lesser(INT_MAX, if old(loop.time) + timeout <= UINT64_MAX then timeout else UINT64_MAX - old(loop.time))
  {
    ghost var l := loop.View();
    var status := loop.StartTimer(id, true, false, timeout, repeat);
    StartedIsDue(l, id, timeout, repeat, l.time);
    StartedAlone(l, id, timeout, repeat);
    wait := loop.NextTimeout();
    ghost var l' := loop.View();
    assert At(l', l.time) == l' && id in Active(l') && l'.timers == loop.timers;
    assert wait > 0 ==> id !in Due(l') && Due(l') == {};
  }

  lemma StartedAlone(l: Loop, id: nat, timeout: nat, repeat: nat)
    requires Active(l) <= {id} && l.time <= UINT64_MAX
    ensures var l' := Start(l, id, timeout, repeat);
            && Active(l') == {id} && Due(l') <= {id}
            && l'.timers[id].timeout == if l.time + timeout <= UINT64_MAX then l.time + timeout else UINT64_MAX
  {
    var l' := Start(l, id, timeout, repeat);
    assert forall other :: other in Active(l') && other != id ==> other in Active(l);
  }
}
