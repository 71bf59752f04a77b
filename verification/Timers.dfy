// libuv's timers: starting, stopping and repeating them on the heap, and one pass of uv__run_timers.
module Timers {
  import opened TimerHeap

  const UINT64_MAX: nat := 0xFFFF_FFFF_FFFF_FFFF
  const INT_MAX: nat := 0x7FFF_FFFF
  const UV_EINVAL := -22

  // A handle: timer_cb is set or NULL
  datatype Timer = Timer(hasCallback: bool, timeout: nat, repeat: nat, startId: nat, active: bool)
  {
    function Key(): Deadline {
      Deadline(timeout, startId)
    }
  }

  datatype Loop = Loop(time: nat, counter: nat, timers: map<nat, Timer>)

  // The sum saturates
  function Clamp(time: nat, timeout: nat): nat {
    if time + timeout > UINT64_MAX then UINT64_MAX else time + timeout
  }

  // uv_timer_init
  function Init(l: Loop, id: nat): Loop {
    l.(timers := l.timers[id := Timer(false, 0, 0, 0, false)])
  }

  function Stop(l: Loop, id: nat): Loop
    requires id in l.timers
  {
    l.(timers := l.timers[id := l.timers[id].(active := false)])
  }

  function Start(l: Loop, id: nat, timeout: nat, repeat: nat): Loop {
    l.(counter := l.counter + 1,
       timers := l.timers[id := Timer(true, Clamp(l.time, timeout), repeat, l.counter, true)])
  }

  lemma StartAfterStop(l: Loop, id: nat, timeout: nat, repeat: nat)
    requires id in l.timers
    ensures Start(Stop(l, id), id, timeout, repeat) == Start(l, id, timeout, repeat)
  {
  }

  // uv_timer_again of a handle whose callback is set
  function Again(l: Loop, id: nat): Loop
    requires id in l.timers
  {
    if l.timers[id].hasCallback && l.timers[id].repeat > 0
    then Start(l, id, l.timers[id].repeat, l.timers[id].repeat)
    else l
  }

  // What a callback may call
  datatype Action = Starting(id: nat, timeout: nat, repeat: nat) | Stopping(id: nat) | AgainOn(id: nat) | SettingRepeat(id: nat, repeat: nat)

  function Perform(l: Loop, act: Action): Loop {
    if act.id !in l.timers then l
    else match act
      case Starting(id, timeout, repeat) => Start(l, id, timeout, repeat)
      case Stopping(id) => Stop(l, id)
      case AgainOn(id) => Again(l, id)
      case SettingRepeat(id, repeat) => l.(timers := l.timers[id := l.timers[id].(repeat := repeat)])
  }

  function PerformAll(l: Loop, acts: seq<Action>): Loop
    decreases |acts|
  {
    if acts == [] then l else PerformAll(Perform(l, acts[0]), acts[1..])
  }

  // ---- Deadlines ----

  ghost function Active(l: Loop): set<nat> {
    set id | id in l.timers && l.timers[id].active
  }

  ghost function Due(l: Loop): set<nat> {
    set id | id in l.timers && l.timers[id].active && l.timers[id].timeout <= l.time
  }

  // Start ids are handed out in order
  ghost predicate Counted(l: Loop) {
    && (forall id :: id in Active(l) ==> l.timers[id].hasCallback && l.timers[id].startId < l.counter)
    && (forall a, b :: a in Active(l) && b in Active(l) && l.timers[a].startId == l.timers[b].startId ==> a == b)
  }

  ghost predicate IsFirst(l: Loop, id: nat) {
    id in Active(l) && forall other :: other in Active(l) ==> !Earlier(l.timers[other].Key(), l.timers[id].Key())
  }

  lemma CountedStop(l: Loop, id: nat)
    requires Counted(l) && id in Active(l)
    ensures Counted(Stop(l, id)) && Active(Stop(l, id)) == Active(l) - {id}
  {
  }

  lemma CountedStart(l: Loop, id: nat, timeout: nat, repeat: nat)
    requires Counted(l)
    ensures Counted(Start(l, id, timeout, repeat))
  {
  }

  lemma CountedPerform(l: Loop, act: Action)
    requires Counted(l)
    ensures Counted(Perform(l, act)) && Perform(l, act).time == l.time && Perform(l, act).timers.Keys == l.timers.Keys
  {
  }

  // ---- One pass ----

  // The due timers, and when they are due, stay the same
  ghost predicate SameDue(l: Loop, l': Loop) {
    && Due(l') == Due(l) && l'.time == l.time
    && forall id :: id in Due(l) ==> l'.timers[id].Key() == l.timers[id].Key()
  }

  // It starts only timers that are not due, each for strictly later, and stops none that is
  predicate Harmless(l: Loop, act: Action) {
    act.id in l.timers ==>
      var t := l.timers[act.id];
      var due := t.active && t.timeout <= l.time;
      match act
      case Starting(_, timeout, _) => timeout > 0 && !due
      case Stopping(_) => !due
      case AgainOn(_) => due ==> t.repeat == 0
      case SettingRepeat(_, _) => true
  }

  predicate AllHarmless(l: Loop, acts: seq<Action>)
    decreases |acts|
  {
    acts == [] || (Harmless(l, acts[0]) && AllHarmless(Perform(l, acts[0]), acts[1..]))
  }

  // The harmless calls are those that leave the due timers as they are
  lemma HarmlessExactly(l: Loop, act: Action)
    requires Counted(l) && l.time < UINT64_MAX
    ensures Harmless(l, act) <==> SameDue(l, Perform(l, act))
  {
    var l' := Perform(l, act);
    if act.id in l.timers {
      var t := l.timers[act.id];
      assert act.Starting? ==> (Clamp(l.time, act.timeout) > l.time <==> act.timeout > 0);
      assert t.active ==> act.id in Active(l);
      forall id | id in l.timers && id != act.id ensures id in Due(l') <==> id in Due(l) {}
      if Harmless(l, act) {
        assert act.id in Due(l') <==> act.id in Due(l);
        assert Due(l') == Due(l);
      } else {
        assert act.id in Due(l) ==> act.id !in Due(l') || l'.timers[act.id].Key() != t.Key();
      }
    }
  }

  lemma {:induction false} HarmlessAll(l: Loop, acts: seq<Action>)
    requires AllHarmless(l, acts) && l.time < UINT64_MAX && Counted(l)
    ensures SameDue(l, PerformAll(l, acts)) && Counted(PerformAll(l, acts))
    ensures PerformAll(l, acts).timers.Keys == l.timers.Keys
    decreases |acts|
  {
    if acts != [] {
      HarmlessExactly(l, acts[0]);
      CountedPerform(l, acts[0]);
      HarmlessAll(Perform(l, acts[0]), acts[1..]);
    }
  }

  // Firing: stopped, then started again if it repeats
  function Fired(l: Loop, id: nat): Loop
    requires id in l.timers
  {
    Again(Stop(l, id), id)
  }

  lemma FiredTimer(l: Loop, id: nat)
    requires id in Due(l) && Counted(l) && l.time < UINT64_MAX
    ensures var l' := Fired(l, id);
            l'.time == l.time && l'.timers.Keys == l.timers.Keys && id !in Due(l') &&
            (forall other :: other in l.timers && other != id ==> l'.timers[other] == l.timers[other])
    // a repeating timer is armed again for strictly later
    ensures l.timers[id].repeat > 0 ==> Fired(l, id).timers[id].active && Fired(l, id).timers[id].timeout > l.time
  {
    assert id in Active(l);
  }

  lemma FiringLeaves(l: Loop, id: nat)
    requires id in Due(l) && Counted(l) && l.time < UINT64_MAX
    ensures Counted(Fired(l, id)) && Due(Fired(l, id)) == Due(l) - {id}
  {
    FiredTimer(l, id);
    CountedPerform(l, Stopping(id));
    CountedPerform(Stop(l, id), AgainOn(id));
    assert forall other :: other in Due(Fired(l, id)) <==> other in Due(l) && other != id;
  }

  function KeyOf(l: Loop, id: nat): Deadline {
    if id in l.timers then l.timers[id].Key() else Deadline(0, 0)
  }

  // How far a pass has come: fired so far, from l0, in order, and what is due now is what is left
  ghost predicate Passing(l0: Loop, l: Loop, fired: seq<nat>) {
    && l.time == l0.time && l.timers.Keys == l0.timers.Keys
    && (forall id :: id in Due(l0) <==> id in fired || id in Due(l))
    && (forall id :: id in fired ==> id !in Due(l))
    && (forall id :: id in Due(l) ==> l.timers[id].Key() == l0.timers[id].Key())
    && (forall i, j :: 0 <= i < j < |fired| ==> Earlier(KeyOf(l0, fired[i]), KeyOf(l0, fired[j])))
    && (forall i, id :: 0 <= i < |fired| && id in Due(l) ==> Earlier(KeyOf(l0, fired[i]), KeyOf(l0, id)))
  }

  lemma FirstEarliest(l: Loop, id: nat, other: nat)
    requires Counted(l) && IsFirst(l, id) && other in Due(l) && other != id
    ensures Earlier(KeyOf(l, id), KeyOf(l, other))
  {
    assert other in Active(l) && id in Active(l);
    assert l.timers[other].startId != l.timers[id].startId;
  }

  lemma PassStep(l0: Loop, l: Loop, fired: seq<nat>, id: nat, l': Loop)
    requires Passing(l0, l, fired) && Counted(l) && IsFirst(l, id) && id in Due(l)
    requires l'.time == l.time && l'.timers.Keys == l.timers.Keys && Due(l') == Due(l) - {id}
    requires forall other :: other in Due(l') ==> l'.timers[other].Key() == l.timers[other].Key()
    ensures Passing(l0, l', fired + [id]) && |Due(l')| < |Due(l)|
  {
    forall other | other in Due(l') ensures Earlier(KeyOf(l0, id), KeyOf(l0, other)) {
      FirstEarliest(l, id, other);
    }
  }

  // A turn of the loop: firing, and then the callback
  function TurnOf(l: Loop, id: nat, callback: (nat, Loop) -> seq<Action>): Loop
    requires id in l.timers
  {
    PerformAll(Fired(l, id), callback(id, Fired(l, id)))
  }

  // The loop after firing these timers one after the other, and that each was the first one and due
  function AfterAll(l0: Loop, fired: seq<nat>, callback: (nat, Loop) -> seq<Action>): Loop {
    if fired == [] then l0
    else
      var l := AfterAll(l0, fired[..|fired| - 1], callback);
      if fired[|fired| - 1] in l.timers then TurnOf(l, fired[|fired| - 1], callback) else l
  }

  ghost predicate InTurn(l0: Loop, fired: seq<nat>, callback: (nat, Loop) -> seq<Action>) {
    fired == [] ||
    (InTurn(l0, fired[..|fired| - 1], callback) &&
     var l, id := AfterAll(l0, fired[..|fired| - 1], callback), fired[|fired| - 1];
     IsFirst(l, id) && id in Due(l))
  }

  ghost predicate Passed(l0: Loop, l: Loop, fired: seq<nat>) {
    Passing(l0, l, fired) && Counted(l) && |Due(l)| + |fired| <= |Due(l0)|
  }

  lemma TurnPasses(l0: Loop, l: Loop, fired: seq<nat>, id: nat, l': Loop)
    requires Passed(l0, l, fired) && l.time < UINT64_MAX && IsFirst(l, id) && id in Due(l)
    requires SameDue(Fired(l, id), l') && Counted(l') && l'.timers.Keys == l.timers.Keys
    ensures Passed(l0, l', fired + [id])
  {
    FiredTimer(l, id);
    FiringLeaves(l, id);
    PassStep(l0, l, fired, id, l');
  }

  // Whatever callbacks do, the time, the handles and the order of start ids stay
  lemma {:induction false} CountedAll(l: Loop, acts: seq<Action>)
    requires Counted(l)
    ensures Counted(PerformAll(l, acts)) && PerformAll(l, acts).time == l.time && PerformAll(l, acts).timers.Keys == l.timers.Keys
    decreases |acts|
  {
    if acts != [] {
      CountedPerform(l, acts[0]);
      CountedAll(Perform(l, acts[0]), acts[1..]);
    }
  }

  lemma CountedTurn(l: Loop, id: nat, callback: (nat, Loop) -> seq<Action>)
    requires Counted(l) && id in l.timers
    ensures var l' := TurnOf(l, id, callback); Counted(l') && l'.time == l.time && l'.timers.Keys == l.timers.Keys
    ensures Counted(Fired(l, id)) && Fired(l, id).time == l.time && Fired(l, id).timers.Keys == l.timers.Keys
  {
    CountedPerform(l, Stopping(id));
    CountedPerform(Stop(l, id), AgainOn(id));
    CountedAll(Fired(l, id), callback(id, Fired(l, id)));
  }

  lemma {:induction false} CountedAfter(l0: Loop, fired: seq<nat>, callback: (nat, Loop) -> seq<Action>)
    requires Counted(l0)
    ensures var l := AfterAll(l0, fired, callback); Counted(l) && l.time == l0.time && l.timers.Keys == l0.timers.Keys
  {
    if fired != [] {
      var init, id := fired[..|fired| - 1], fired[|fired| - 1];
      CountedAfter(l0, init, callback);
      if id in l0.timers {
        CountedTurn(AfterAll(l0, init, callback), id, callback);
      }
    }
  }

  // After the turns of fired, the loop comes to id
  ghost predicate Reached(l0: Loop, fired: seq<nat>, id: nat, callback: (nat, Loop) -> seq<Action>) {
    var l := AfterAll(l0, fired, callback);
    InTurn(l0, fired, callback) && IsFirst(l, id) && id in Due(l)
  }

  // No callback of the pass changes which timers are due, or when
  ghost predicate LeavesDue(l0: Loop, callback: (nat, Loop) -> seq<Action>) {
    forall fired, id {:trigger Reached(l0, fired, id, callback)} :: Reached(l0, fired, id, callback) ==>
      SameDueAfter(AfterAll(l0, fired, callback), id, callback)
  }

  ghost predicate SameDueAfter(l: Loop, id: nat, callback: (nat, Loop) -> seq<Action>)
    requires id in l.timers
  {
    SameDue(Fired(l, id), TurnOf(l, id, callback))
  }

  // At every point of the pass just the timers due at its start have fired or are still due, in order
  ghost predicate AlwaysPassing(l0: Loop, callback: (nat, Loop) -> seq<Action>) {
    forall fired {:trigger InTurn(l0, fired, callback)} :: InTurn(l0, fired, callback) ==> Passing(l0, AfterAll(l0, fired, callback), fired)
  }

  // A pass is as promised exactly if every callback it calls leaves the due timers as they are
  lemma PassExactly(l0: Loop, callback: (nat, Loop) -> seq<Action>)
    requires Counted(l0) && l0.time < UINT64_MAX
    ensures AlwaysPassing(l0, callback) <==> LeavesDue(l0, callback)
  {
    if LeavesDue(l0, callback) {
      forall fired | InTurn(l0, fired, callback) ensures Passing(l0, AfterAll(l0, fired, callback), fired) {
        TurnsPass(l0, fired, callback);
      }
    }
    if AlwaysPassing(l0, callback) {
      forall fired, id | Reached(l0, fired, id, callback)
        ensures SameDueAfter(AfterAll(l0, fired, callback), id, callback)
      {
        TurnAdds(l0, fired, id, callback);
        assert InTurn(l0, fired, callback) && InTurn(l0, fired + [id], callback);
        PassingLeaves(l0, fired, id, callback);
      }
    }
  }

  lemma PassingLeaves(l0: Loop, fired: seq<nat>, id: nat, callback: (nat, Loop) -> seq<Action>)
    requires Counted(l0) && l0.time < UINT64_MAX && id in Due(AfterAll(l0, fired, callback))
    requires Passing(l0, AfterAll(l0, fired, callback), fired) && Passing(l0, AfterAll(l0, fired + [id], callback), fired + [id])
    ensures SameDueAfter(AfterAll(l0, fired, callback), id, callback)
  {
    var l := AfterAll(l0, fired, callback);
    var l' := TurnOf(l, id, callback);
    CountedAfter(l0, fired, callback);
    AfterOne(l0, fired, id, callback);
    PassingSame(l0, l, l', fired, id);
  }

  lemma PassingSame(l0: Loop, l: Loop, l': Loop, fired: seq<nat>, id: nat)
    requires Counted(l) && l.time < UINT64_MAX && id in Due(l)
    requires Passing(l0, l, fired) && Passing(l0, l', fired + [id])
    ensures SameDue(Fired(l, id), l')
  {
    FiredTimer(l, id);
    FiringLeaves(l, id);
    forall x ensures x in Due(l') <==> x in Due(l) && x != id {
      assert x in fired + [id] <==> x in fired || x == id;
    }
    assert Due(l') == Due(Fired(l, id));
  }

  // Harmless calls, each judged where the pass makes it, leave the due timers as they are
  lemma HarmlessLeaves(l0: Loop, callback: (nat, Loop) -> seq<Action>)
    requires Counted(l0) && l0.time < UINT64_MAX
    requires forall fired, id :: Reached(l0, fired, id, callback) ==>
               var l := AfterAll(l0, fired, callback); AllHarmless(Fired(l, id), callback(id, Fired(l, id)))
    ensures LeavesDue(l0, callback)
  {
    forall fired, id | Reached(l0, fired, id, callback)
      ensures SameDueAfter(AfterAll(l0, fired, callback), id, callback)
    {
      var l := AfterAll(l0, fired, callback);
      CountedAfter(l0, fired, callback);
      CountedTurn(l, id, callback);
      HarmlessAll(Fired(l, id), callback(id, Fired(l, id)));
    }
  }

  // Such as a callback that starts its own timer again for strictly later
  lemma RearmingLeaves(l0: Loop, delay: nat, repeat: nat, callback: (nat, Loop) -> seq<Action>)
    requires Counted(l0) && l0.time < UINT64_MAX && delay > 0
    requires forall id, l :: callback(id, l) == [Starting(id, delay, repeat)]
    ensures LeavesDue(l0, callback)
  {
    forall fired, id | Reached(l0, fired, id, callback)
      ensures var l := AfterAll(l0, fired, callback); AllHarmless(Fired(l, id), callback(id, Fired(l, id)))
    {
      var l := AfterAll(l0, fired, callback);
      CountedAfter(l0, fired, callback);
      FiredTimer(l, id);
      assert Harmless(Fired(l, id), Starting(id, delay, repeat));
      assert [Starting(id, delay, repeat)][1..] == [];
    }
    HarmlessLeaves(l0, callback);
  }

  lemma {:induction false} TurnsPass(l0: Loop, fired: seq<nat>, callback: (nat, Loop) -> seq<Action>)
    requires Counted(l0) && l0.time < UINT64_MAX && InTurn(l0, fired, callback) && LeavesDue(l0, callback)
    ensures Passed(l0, AfterAll(l0, fired, callback), fired)
  {
    if fired != [] {
      var init, id := fired[..|fired| - 1], fired[|fired| - 1];
      var l := AfterAll(l0, init, callback);
      assert fired == init + [id];
      TurnsPass(l0, init, callback);
      LastTurn(l0, fired, callback);
      assert Reached(l0, init, id, callback) && SameDueAfter(l, id, callback);
      CountedTurn(l, id, callback);
      TurnPasses(l0, l, init, id, TurnOf(l, id, callback));
      AfterOne(l0, init, id, callback);
    }
  }

  lemma LastTurn(l0: Loop, fired: seq<nat>, callback: (nat, Loop) -> seq<Action>)
    requires fired != [] && InTurn(l0, fired, callback)
    ensures InTurn(l0, fired[..|fired| - 1], callback)
    ensures var l, id := AfterAll(l0, fired[..|fired| - 1], callback), fired[|fired| - 1];
            IsFirst(l, id) && id in Due(l)
  {
  }

  lemma TurnsBounded(l0: Loop, fired: seq<nat>, callback: (nat, Loop) -> seq<Action>)
    requires Counted(l0) && l0.time < UINT64_MAX && InTurn(l0, fired, callback) && LeavesDue(l0, callback)
    ensures |fired| <= |Due(l0)|
  {
    TurnsPass(l0, fired, callback);
  }

  lemma AfterOne(l0: Loop, fired: seq<nat>, id: nat, callback: (nat, Loop) -> seq<Action>)
    requires id in AfterAll(l0, fired, callback).timers
    ensures AfterAll(l0, fired + [id], callback) == TurnOf(AfterAll(l0, fired, callback), id, callback)
  {
    assert (fired + [id])[..|fired|] == fired;
  }

  lemma TurnAdds(l0: Loop, fired: seq<nat>, id: nat, callback: (nat, Loop) -> seq<Action>)
    requires InTurn(l0, fired, callback)
    requires var l := AfterAll(l0, fired, callback); IsFirst(l, id) && id in Due(l)
    ensures InTurn(l0, fired + [id], callback)
  {
    assert (fired + [id])[..|fired|] == fired;
  }

  // No timer is due any more, and just those due at the start have fired, each once, in order
  lemma PassDone(l0: Loop, l: Loop, fired: seq<nat>)
    requires Passing(l0, l, fired) && Due(l) == {}
    ensures forall id :: id in fired <==> id in Due(l0)
    ensures forall i, j :: 0 <= i < j < |fired| ==> fired[i] != fired[j]
  {
  }

  // A callback that always starts its own timer with a zero timeout is called without end
  function Times(id: nat, n: nat): seq<nat> {
    if n == 0 then [] else Times(id, n - 1) + [id]
  }

  lemma {:induction false} ZeroTimeoutNeverEnds(l0: Loop, id: nat, repeat: nat, callback: (nat, Loop) -> seq<Action>, n: nat)
    requires l0.timers.Keys == {id} && Counted(l0) && id in Due(l0) && l0.time < UINT64_MAX
    requires forall l :: callback(id, l) == [Starting(id, 0, repeat)]
    ensures InTurn(l0, Times(id, n), callback) && |Times(id, n)| == n
    ensures id in Due(AfterAll(l0, Times(id, n), callback))
  {
    if n > 0 {
      ZeroTimeoutNeverEnds(l0, id, repeat, callback, n - 1);
      var l := AfterAll(l0, Times(id, n - 1), callback);
      assert callback(id, Fired(l, id)) == [Starting(id, 0, repeat)];
      ZeroTimeoutTurn(l0, Times(id, n - 1), id, repeat, callback);
    }
  }

  lemma ZeroTimeoutTurn(l0: Loop, fired: seq<nat>, id: nat, repeat: nat, callback: (nat, Loop) -> seq<Action>)
    requires l0.timers.Keys == {id} && Counted(l0) && l0.time < UINT64_MAX
    requires InTurn(l0, fired, callback) && id in Due(AfterAll(l0, fired, callback))
    requires callback(id, Fired(AfterAll(l0, fired, callback), id)) == [Starting(id, 0, repeat)]
    ensures InTurn(l0, fired + [id], callback) && id in Due(AfterAll(l0, fired + [id], callback))
  {
    var l := AfterAll(l0, fired, callback);
    CountedAfter(l0, fired, callback);
    OnlyOne(l, id);
    TurnAdds(l0, fired, id, callback);
    ZeroTimeoutComesBack(l, id, repeat, callback);
    AfterOne(l0, fired, id, callback);
  }

  lemma OnlyOne(l: Loop, id: nat)
    requires l.timers.Keys == {id} && id in Due(l)
    ensures IsFirst(l, id)
  {
  }

  lemma ZeroTimeoutComesBack(l: Loop, id: nat, repeat: nat, callback: (nat, Loop) -> seq<Action>)
    requires id in Due(l) && l.time <= UINT64_MAX && callback(id, Fired(l, id)) == [Starting(id, 0, repeat)]
    ensures id in Due(TurnOf(l, id, callback))
  {
    var l1 := Fired(l, id);
    assert PerformAll(l1, [Starting(id, 0, repeat)]) == PerformAll(Perform(l1, Starting(id, 0, repeat)), []);
  }

  // ---- The loop with its heap ----

  class TimerLoop {
    var time: nat
    var counter: nat
    var timers: map<nat, Timer>
    var nodes: map<nat, Node>      // the heap nodes of the active handles
    var owner: map<Node, nat>      // container_of
    const heap: Heap

    function View(): Loop
      reads this
    {
      Loop(time, counter, timers)
    }

    ghost predicate Valid()
      reads this, heap, heap.members
    {
      && heap.Valid()
      && Counted(View())
      && nodes.Keys == Active(View())
      && Placed(timers, nodes, owner, heap.members)
    }

    constructor ()
      ensures Valid() && View() == Loop(0, 0, map[]) && fresh(heap) && heap.members == {}
    {
      time, counter, timers, nodes, owner := 0, 0, map[], map[], map[];
      heap := new Heap();
    }

    // uv_timer_init
    method InitTimer(id: nat)
      requires Valid() && id !in timers
      modifies this`timers
      ensures Valid() && View() == Init(old(View()), id)
    {
      timers := timers[id := Timer(false, 0, 0, 0, false)];
    }

    // uv_timer_stop
    method StopTimer(id: nat)
      requires Valid() && id in timers
      modifies this`timers, this`nodes, heap, heap.members
      ensures Valid() && View() == Stop(old(View()), id) && heap.members <= old(heap.members)
    {
      if !timers[id].active {
        assert timers[id := timers[id].(active := false)] == timers;
        return;
      }
      assert id in Active(View());
      ghost var members := heap.members;
      heap.Remove(nodes[id]);
      Leave(id, members);
    }

    // The handle stops being active, and gives up the node it had among members
    method Leave(id: nat, ghost members: set<Node>)
      requires Counted(View()) && nodes.Keys == Active(View()) && Placed(timers, nodes, owner, members) && id in nodes
      modifies this`timers, this`nodes
      ensures Counted(View()) && nodes.Keys == Active(View()) && Placed(timers, nodes, owner, members - {old(nodes[id])})
      ensures View() == Stop(old(View()), id)
    {
      StoppedPlaced(timers, nodes, owner, members, id);
      CountedStop(View(), id);
      timers := timers[id := timers[id].(active := false)];
      nodes := nodes - {id};
    }

    // uv_timer_start
    method StartTimer(id: nat, callback: bool, closing: bool, timeout: nat, repeat: nat) returns (status: int)
      requires Valid() && id in timers
      modifies this, heap, heap.members
      ensures Valid() && fresh(heap.members - old(heap.members))
      ensures status == if closing || !callback then UV_EINVAL else 0
      ensures View() == if closing || !callback then old(View()) else Start(old(View()), id, timeout, repeat)
    {
      if closing || !callback {
        return UV_EINVAL;
      }
      Rearm(id, timeout, repeat);
      return 0;
    }

    method Rearm(id: nat, timeout: nat, repeat: nat)
      requires Valid() && id in timers
      modifies this, heap, heap.members
      ensures Valid() && fresh(heap.members - old(heap.members))
      ensures View() == Start(old(View()), id, timeout, repeat)
    {
      StartAfterStop(View(), id, timeout, repeat);
      StopTimer(id);
      Arm(id, timeout, repeat);
    }

    // Arming a handle that is not active
    method Arm(id: nat, timeout: nat, repeat: nat)
      requires Valid() && id in timers && !timers[id].active
      modifies this, heap, heap.members
      ensures Valid() && fresh(heap.members - old(heap.members))
      ensures View() == Start(old(View()), id, timeout, repeat)
    {
      var node := new Node(Deadline(Clamp(time, timeout), counter));
      Enter(id, timeout, repeat, node);
      heap.Insert(node);
    }

    // The handle becomes active, and owns a node that is not yet in the heap
    method Enter(id: nat, timeout: nat, repeat: nat, node: Node)
      requires Valid() && id in timers && !timers[id].active && node !in heap.members
      requires node.deadline == Deadline(Clamp(time, timeout), counter)
      modifies this`timers, this`counter, this`nodes, this`owner
      ensures Counted(View()) && nodes.Keys == Active(View()) && Placed(timers, nodes, owner, heap.members + {node})
      ensures View() == Start(old(View()), id, timeout, repeat)
    {
      var armed := Timer(true, Clamp(time, timeout), repeat, counter, true);
      CountedStart(View(), id, timeout, repeat);
      ArmedPlaced(timers, nodes, owner, heap.members, id, armed, node);
      timers := timers[id := armed];
      counter := counter + 1;
      nodes := nodes[id := node];
      owner := owner[node := id];
    }

    // uv_timer_again
    method AgainTimer(id: nat) returns (status: int)
      requires Valid() && id in timers
      modifies this, heap, heap.members
      ensures Valid() && fresh(heap.members - old(heap.members))
      ensures status == if old(timers[id].hasCallback) then 0 else UV_EINVAL
      ensures View() == Again(old(View()), id)
    {
      if !timers[id].hasCallback {
        return UV_EINVAL;
      }
      if timers[id].repeat > 0 {
        Rearm(id, timers[id].repeat, timers[id].repeat);
      }
      return 0;
    }

    // heap_min's owner is the first timer to fire
    lemma MinIsFirst()
      requires Valid() && heap.min != null
      ensures heap.min in owner && owner[heap.min] in timers && IsFirst(View(), owner[heap.min])
    {
      var s := heap.nodes;
      assert heap.min == s[0] && s[0] in s && s[0] in heap.members;
      var id := owner[heap.min];
      forall other | other in Active(View()) ensures !Earlier(timers[other].Key(), timers[id].Key()) {
        assert nodes[other] in heap.members && nodes[other] in s;
        var i :| 0 <= i < |s| && s[i] == nodes[other];
        RootEarliest(s, i);
      }
    }

    lemma EmptyHeap()
      requires Valid() && heap.min == null
      ensures Active(View()) == {}
    {
      if id :| id in Active(View()) {
        assert nodes[id] in heap.members && nodes[id] in heap.nodes;
      }
    }

    // uv__next_timeout: -1 without a timer, else the wait for the earliest deadline, or INT_MAX if that is less
    method NextTimeout() returns (timeout: int)
      requires Valid()
      ensures timeout >= -1 && (timeout == -1 <==> Active(View()) == {})
      ensures timeout == 0 <==> Due(View()) != {}
      ensures timeout > 0 ==> timeout <= INT_MAX && forall id :: id in Active(View()) ==> time + timeout <= timers[id].timeout
      ensures 0 < timeout < INT_MAX ==> exists id :: id in Active(View()) && timers[id].timeout == time + timeout
    {
      if heap.min == null {
        EmptyHeap();
        return -1;
      }
      MinIsFirst();
      var id := owner[heap.min];
      if timers[id].timeout <= time {
        assert id in Due(View());
        return 0;
      }
      timeout := timers[id].timeout - time;
      if timeout > INT_MAX {
        timeout := INT_MAX;
      }
    }

    // A callback's calls
    method PerformActions(acts: seq<Action>)
      requires Valid()
      modifies this, heap, heap.members
      ensures Valid() && fresh(heap.members - old(heap.members)) && View() == PerformAll(old(View()), acts)
    {
      var i := 0;
      while i < |acts|
        invariant 0 <= i <= |acts| && Valid() && fresh(heap.members - old(heap.members))
        invariant PerformAll(View(), acts[i..]) == PerformAll(old(View()), acts)
      {
        assert acts[i..][0] == acts[i] && acts[i..][1..] == acts[i + 1..];
        ghost var added := heap.members - old(heap.members);
        ghost var members := heap.members;
        PerformAction(acts[i]);
        assert heap.members - old(heap.members) <= added + (heap.members - members);
        i := i + 1;
      }
    }

    method PerformAction(act: Action)
      requires Valid()
      modifies this, heap, heap.members
      ensures Valid() && fresh(heap.members - old(heap.members)) && View() == Perform(old(View()), act)
    {
      if act.id !in timers {
        return;
      }
      match act
      case Starting(id, timeout, repeat) => Rearm(id, timeout, repeat);
      case Stopping(id) => StopTimer(id);
      case AgainOn(id) => var status := AgainTimer(id);
      case SettingRepeat(id, repeat) => SetRepeat(id, repeat);
    }

    // uv_timer_set_repeat
    method SetRepeat(id: nat, repeat: nat)
      requires Valid() && id in timers
      modifies this`timers
      ensures Valid() && View() == Perform(old(View()), SettingRepeat(id, repeat))
    {
      RepeatSet(View(), nodes, owner, heap.members, id, repeat);
      timers := timers[id := timers[id].(repeat := repeat)];
    }

    // uv__run_timers: if callbacks leave the due timers as they are it fires the timers due at its start, and no others, each once
    // and in the order of their deadlines.
    method RunTimers(callback: (nat, Loop) -> seq<Action>) returns (fired: seq<nat>)
      requires Valid() && time < UINT64_MAX
      requires LeavesDue(View(), callback)
      modifies this, heap, heap.members
      ensures Valid() && Due(View()) == {} && Passing(old(View()), View(), fired)
    {
      ghost var l0 := View();
      fired := RunTurns(callback);
      TurnsPass(l0, fired, callback);
    }

    // The timers of fired have had their turns; if there is more, id is next, else none is due any more
    ghost predicate Underway(l0: Loop, fired: seq<nat>, more: bool, id: nat, callback: (nat, Loop) -> seq<Action>)
      reads this
    {
      && View() == AfterAll(l0, fired, callback) && InTurn(l0, fired, callback) && |fired| <= |Due(l0)|
      && if more then IsFirst(View(), id) && id in Due(View()) else Due(View()) == {}
    }

    // The loop of uv__run_timers
    method RunTurns(callback: (nat, Loop) -> seq<Action>) returns (fired: seq<nat>)
      requires Valid() && time < UINT64_MAX && LeavesDue(View(), callback)
      modifies this, heap, heap.members
      ensures Valid() && Underway(old(View()), fired, false, 0, callback)
    {
      ghost var l0, added: set<Node> := View(), {};
      ghost var due := |Due(l0)|;
      fired := [];
      var more, id := NextDue();
      while more
        invariant Valid() && heap.members <= old(heap.members) + added && fresh(added)
        invariant |fired| <= due && Underway(l0, fired, more, if more then id else 0, callback)
        decreases due - |fired|, more
      {
        ghost var members := heap.members;
        fired, more, id := TurnNext(l0, fired, id, callback);
        added := added + (heap.members - members);
      }
    }

    method TurnNext(ghost l0: Loop, fired0: seq<nat>, last: nat, callback: (nat, Loop) -> seq<Action>)
      returns (fired: seq<nat>, more: bool, id: nat)
      requires Valid() && Counted(l0) && l0.time < UINT64_MAX && LeavesDue(l0, callback)
      requires Underway(l0, fired0, true, last, callback)
      modifies this, heap, heap.members
      ensures Valid() && fresh(heap.members - old(heap.members)) && |fired| == |fired0| + 1
      ensures Underway(l0, fired, more, if more then id else 0, callback)
    {
      fired := fired0 + [last];
      AfterOne(l0, fired0, last, callback);
      TurnAdds(l0, fired0, last, callback);
      TurnsBounded(l0, fired, callback);
      Turn(last, callback);
      more, id := NextDue();
    }

    // The timer at the top of the heap, if it is due
    method NextDue() returns (found: bool, id: nat)
      requires Valid()
      ensures if found then IsFirst(View(), id) && id in Due(View()) else Due(View()) == {}
    {
      if heap.min == null {
        EmptyHeap();
        return false, 0;
      }
      MinIsFirst();
      id := owner[heap.min];
      found := timers[id].timeout <= time;
    }

    method Fire(id: nat)
      requires Valid() && id in timers
      modifies this, heap, heap.members
      ensures Valid() && fresh(heap.members - old(heap.members)) && View() == Fired(old(View()), id)
    {
      StopTimer(id);
      var status := AgainTimer(id);
    }

    method Turn(id: nat, callback: (nat, Loop) -> seq<Action>)
      requires Valid() && id in timers
      modifies this, heap, heap.members
      ensures Valid() && fresh(heap.members - old(heap.members)) && View() == TurnOf(old(View()), id, callback)
    {
      Fire(id);
      PerformActions(callback(id, View()));
    }
  }

  // A handle is active exactly if its node is in the heap, under its deadline
  ghost predicate Placed(timers: map<nat, Timer>, nodes: map<nat, Node>, owner: map<Node, nat>, members: set<Node>) {
    && (forall id :: id in nodes ==> id in timers && nodes[id] in members && nodes[id].deadline == timers[id].Key())
    && (forall id :: id in nodes ==> nodes[id] in owner && owner[nodes[id]] == id)
    && (forall n :: n in members ==> n in owner && owner[n] in nodes && nodes[owner[n]] == n)
  }

  lemma StoppedPlaced(timers: map<nat, Timer>, nodes: map<nat, Node>, owner: map<Node, nat>, members: set<Node>, id: nat)
    requires Placed(timers, nodes, owner, members) && id in nodes
    ensures Placed(timers[id := timers[id].(active := false)], nodes - {id}, owner, members - {nodes[id]})
  {
  }

  lemma RepeatSet(l: Loop, nodes: map<nat, Node>, owner: map<Node, nat>, members: set<Node>, id: nat, repeat: nat)
    requires Counted(l) && nodes.Keys == Active(l) && Placed(l.timers, nodes, owner, members) && id in l.timers
    ensures var l' := Perform(l, SettingRepeat(id, repeat));
            Counted(l') && Active(l') == Active(l) && Placed(l'.timers, nodes, owner, members)
  {
  }

  lemma ArmedPlaced(timers: map<nat, Timer>, nodes: map<nat, Node>, owner: map<Node, nat>, members: set<Node>, id: nat, t: Timer, n: Node)
    requires Placed(timers, nodes, owner, members) && id !in nodes && n !in members && n.deadline == t.Key()
    requires forall other :: other in nodes ==> nodes[other] != n
    ensures Placed(timers[id := t], nodes[id := n], owner[n := id], members + {n})
  {
  }
}
