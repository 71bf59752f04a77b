// What every interleaving of writers keeps.
module GroupCommitProofs {
  import opened Options
  import opened Entries
  import opened GroupCommit

  ghost predicate SameBatches(w: map<nat, Writer>, w': map<nat, Writer>) {
    forall id :: id in w ==> id in w' && w'[id].batch == w[id].batch && w'[id].sync == w[id].sync
  }

  lemma {:induction false} OpsSame(ids: seq<nat>, w: map<nat, Writer>, w': map<nat, Writer>)
    requires Known(ids, w) && SameBatches(w, w')
    ensures Known(ids, w') && Ops(ids, w') == Ops(ids, w)
  {
    if ids != [] {
      OpsSame(ids[..|ids| - 1], w, w');
    }
  }

  lemma {:induction false} SizeSame(queue: seq<nat>, queue': seq<nat>, w: map<nat, Writer>, w': map<nat, Writer>, n: nat)
    requires n <= |queue| <= |queue'| && queue'[..|queue|] == queue && Known(queue, w) && Known(queue', w') && SameBatches(w, w')
    ensures SizeUpTo(queue', w', n) == SizeUpTo(queue, w, n)
  {
    if n > 0 {
      SizeSame(queue, queue', w, w', n - 1);
      assert queue'[n - 1] == queue'[..|queue|][n - 1];
    }
  }

  // ---- The invariant ----

  ghost predicate QueueOk(queue: seq<nat>, writers: map<nat, Writer>) {
    && Known(queue, writers) && Distinct(queue)
    && (forall id :: id in queue ==> !writers[id].done && !writers[id].place.Returned?)
  }

  ghost predicate Leads(p: Place) {
    p.MakingRoom? || p.Committing?
  }

  // No lost wakeup: who sleeps is neither done nor at the head. Only the head is past the wait loop.
  ghost predicate PlacesOk(queue: seq<nat>, writers: map<nat, Writer>) {
    && (forall id :: id in writers && writers[id].place.Asleep? ==> id in queue && id != queue[0])
    && (forall id :: id in writers && Leads(writers[id].place) ==> queue != [] && queue[0] == id)
    && (forall id :: id in writers && id !in queue ==> writers[id].done || writers[id].place.Returned?)
  }

  ghost predicate RidesAlong(queue: seq<nat>, writers: map<nat, Writer>, n: nat)
    requires Known(queue, writers)
  {
    1 <= n <= |queue| && forall i :: 0 < i < n ==> !Stops(queue, writers, i)
  }

  // The group in the leader's hands
  datatype Hand = Nothing | Group(n: nat, stage: Stage)

  function HandOf(queue: seq<nat>, writers: map<nat, Writer>): Hand
    requires Known(queue, writers)
  {
    if queue != [] && writers[queue[0]].place.Committing?
    then Group(writers[queue[0]].place.n, writers[queue[0]].place.stage)
    else Nothing
  }

  ghost predicate HandOk(queue: seq<nat>, writers: map<nat, Writer>, hand: Hand)
    requires Known(queue, writers)
  {
    hand.Group? ==>
      && RidesAlong(queue, writers, hand.n)
      && writers[queue[0]].batch.Some?
      && (hand.stage.Applying? ==> hand.stage.inserted <= |Ops(queue[..hand.n], writers)|)
      && (hand.stage.Unsynced? ==> writers[queue[0]].sync)
  }

  function Ids(results: seq<(nat, Status)>): seq<nat> {
    seq(|results|, i requires 0 <= i < |results| => results[i].0)
  }

  function End(r: Range): nat {
    r.first + |r.ops|
  }

  // One range after the other, from base + 1 up to last
  ghost predicate Contiguous(ranges: seq<Range>, base: nat, last: nat) {
    && (ranges == [] ==> last == base)
    && (ranges != [] ==> ranges[0].first == base + 1 && End(ranges[|ranges| - 1]) == last + 1)
    && (forall i, j :: 0 <= i < j < |ranges| && j == i + 1 ==> ranges[j].first == End(ranges[i]))
  }

  // The writers whose batches took effect, in order
  function Effective(results: seq<(nat, Status)>, writers: map<nat, Writer>): seq<nat> {
    if results == [] then []
    else
      var (id, status) := results[|results| - 1];
      Effective(results[..|results| - 1], writers) +
      if id in writers && writers[id].batch.Some? && status == OK then [id] else []
  }

  function OkIds(ranges: seq<Range>): seq<nat> {
    if ranges == [] then []
    else OkIds(ranges[..|ranges| - 1]) + if ranges[|ranges| - 1].ok then [ranges[|ranges| - 1].id] else []
  }

  ghost function Taken(ranges: seq<Range>): set<Entry> {
    set r, e | r in ranges && r.ok && e in Numbered(r.ops, r.first) :: e
  }

  // What the leader has inserted so far
  function Partly(queue: seq<nat>, writers: map<nat, Writer>, hand: Hand, last: nat): seq<Entry>
    requires Known(queue, writers)
  {
    if hand.Group? && hand.stage.Applying? && hand.n <= |queue| && hand.stage.inserted <= |Ops(queue[..hand.n], writers)|
    then Numbered(Ops(queue[..hand.n], writers), last + 1)[..hand.stage.inserted]
    else []
  }

  // No batch straddles a snapshot
  ghost predicate SnapshotsOk(snapshots: set<nat>, ranges: seq<Range>, last: nat) {
    && (forall q :: q in snapshots ==> q <= last)
    && (forall q, r :: q in snapshots && r in ranges ==> r.first > q || End(r) <= q + 1)
  }

  ghost predicate DurableOk(writers: map<nat, Writer>, results: seq<(nat, Status)>, durable: set<nat>) {
    forall id :: id in writers && writers[id].sync && writers[id].batch.Some? && (id, OK) in results ==> id in durable
  }

  // A leader that syncs has synced before it applies its group
  ghost predicate HandDurable(queue: seq<nat>, writers: map<nat, Writer>, hand: Hand, durable: set<nat>)
    requires Known(queue, writers)
  {
    hand.Group? && hand.stage.Applying? && 0 < hand.n <= |queue| && writers[queue[0]].sync ==>
      forall id :: id in queue[..hand.n] ==> id in durable
  }

  ghost predicate HistoryOk(writers: map<nat, Writer>, arrivals: seq<nat>, results: seq<(nat, Status)>, queue: seq<nat>) {
    && arrivals == Ids(results) + queue && Distinct(arrivals)
    && (forall id :: id in writers <==> id in arrivals)
    && (forall id :: id in writers && writers[id].done ==> (id, writers[id].status) in results)
    && (forall id :: id in writers && writers[id].place.Returned? ==> (id, writers[id].place.result) in results)
  }

  ghost predicate RangesOk(ranges: seq<Range>, results: seq<(nat, Status)>, writers: map<nat, Writer>, base: nat, last: nat) {
    && Contiguous(ranges, base, last)
    && OkIds(ranges) == Effective(results, writers)
    && (forall r :: r in ranges ==>
          r.id in writers && writers[r.id].batch.Some? && writers[r.id].batch.value.ops == r.ops)
  }

  // The queue and what the writers are doing
  ghost predicate Orderly(s: State) {
    && QueueOk(s.queue, s.writers)
    && PlacesOk(s.queue, s.writers)
    && HandOk(s.queue, s.writers, HandOf(s.queue, s.writers))
    && HandDurable(s.queue, s.writers, HandOf(s.queue, s.writers), s.durable)
  }

  // What has been done
  ghost predicate Recorded(s: State, base: nat) {
    && HistoryOk(s.writers, s.arrivals, s.results, s.queue)
    && RangesOk(s.ranges, s.results, s.writers, base, s.last)
    && SnapshotsOk(s.snapshots, s.ranges, s.last)
    && DurableOk(s.writers, s.results, s.durable)
  }

  // The memtable holds the batches that took effect and the leader's group so far
  ghost predicate Held(s: State)
    requires Known(s.queue, s.writers)
  {
    s.mem == Taken(s.ranges) + Elements(Partly(s.queue, s.writers, HandOf(s.queue, s.writers), s.last))
  }

  ghost predicate Invariant(s: State, base: nat) {
    Orderly(s) && Recorded(s, base) && Held(s)
  }

  lemma InitialOk(base: nat)
    ensures Invariant(Initial(base), base)
  {
    InitiallyOrderly(base);
    InitiallyRecorded(base);
  }

  lemma InitiallyOrderly(base: nat)
    ensures Orderly(Initial(base))
  {
  }

  lemma InitiallyRecorded(base: nat)
    ensures Recorded(Initial(base), base)
  {
  }

  // ---- Steps that only change where a writer is ----

  lemma HandSame(queue: seq<nat>, w: map<nat, Writer>, w': map<nat, Writer>, hand: Hand, last: nat)
    requires Known(queue, w) && SameBatches(w, w')
    ensures Known(queue, w') && (HandOk(queue, w, hand) ==> HandOk(queue, w', hand))
    ensures Partly(queue, w', hand, last) == Partly(queue, w, hand, last)
  {
    if hand.Group? && hand.n <= |queue| {
      OpsSame(queue[..hand.n], w, w');
      if RidesAlong(queue, w, hand.n) {
        GroupSame(queue, w, w', hand.n);
      }
    }
  }

  lemma {:induction false} EffectiveSame(results: seq<(nat, Status)>, w: map<nat, Writer>, w': map<nat, Writer>)
    requires SameBatches(w, w') && forall x :: x in results ==> x.0 in w
    ensures Effective(results, w') == Effective(results, w)
  {
    if results != [] {
      var init := results[..|results| - 1];
      assert forall x :: x in init ==> x in results;
      EffectiveSame(init, w, w');
    }
  }

  lemma ResultsKnown(writers: map<nat, Writer>, arrivals: seq<nat>, results: seq<(nat, Status)>, queue: seq<nat>)
    requires HistoryOk(writers, arrivals, results, queue)
    ensures forall x :: x in results ==> x.0 in writers
  {
    forall x | x in results ensures x.0 in writers {
      var i :| 0 <= i < |results| && results[i] == x;
      assert Ids(results)[i] == x.0;
      assert arrivals[i] == x.0;
    }
  }

  lemma GroupSame(queue: seq<nat>, w: map<nat, Writer>, w': map<nat, Writer>, n: nat)
    requires Known(queue, w) && SameBatches(w, w') && RidesAlong(queue, w, n)
    ensures Known(queue, w') && RidesAlong(queue, w', n)
  {
    assert queue[..|queue|] == queue;
    forall i | 0 < i < n ensures !Stops(queue, w', i) {
      assert !Stops(queue, w, i);
      SizeSame(queue, queue, w, w', i + 1);
    }
  }

  // ---- Steps that only change where a writer is ----

  lemma MovePlaces(queue: seq<nat>, w: map<nat, Writer>, id: nat, p: Place)
    requires QueueOk(queue, w) && PlacesOk(queue, w) && id in w
    requires p.Returned? ==> id !in queue
    requires p.Asleep? ==> id in queue && id != queue[0]
    requires Leads(p) ==> queue != [] && queue[0] == id
    requires id !in queue ==> w[id].done || p.Returned?
    ensures QueueOk(queue, w[id := w[id].(place := p)]) && PlacesOk(queue, w[id := w[id].(place := p)])
  {
  }

  lemma MoveRecorded(s: State, s': State, id: nat, p: Place, base: nat)
    requires Recorded(s, base) && id in s.writers
    requires s' == Move(s, id, p).(mem := s'.mem, durable := s'.durable) && s.durable <= s'.durable
    requires p.Returned? ==> (id, p.result) in s.results
    ensures Recorded(s', base)
  {
    ResultsKnown(s.writers, s.arrivals, s.results, s.queue);
    EffectiveSame(s.results, s.writers, s'.writers);
  }

  // A move that concerns no group
  lemma QuietMove(s: State, id: nat, p: Place, base: nat)
    requires Invariant(s, base) && id in s.writers
    requires !s.writers[id].place.Committing? && !p.Committing?
    requires QueueOk(s.queue, Move(s, id, p).writers) && PlacesOk(s.queue, Move(s, id, p).writers)
    requires p.Returned? ==> (id, p.result) in s.results
    ensures Invariant(Move(s, id, p), base)
  {
    MoveRecorded(s, Move(s, id, p), id, p, base);
    assert HandOf(s.queue, Move(s, id, p).writers) == HandOf(s.queue, s.writers);
    HandSame(s.queue, s.writers, Move(s, id, p).writers, HandOf(s.queue, s.writers), s.last);
  }

  lemma CheckKeeps(s: State, id: nat, base: nat)
    requires Invariant(s, base) && At(s, id, Awake)
    ensures Invariant(Check(s, id), base)
  {
    var w := s.writers[id];
    var p := if w.done then Returned(w.status) else if s.queue != [] && s.queue[0] == id then MakingRoom else Asleep;
    MovePlaces(s.queue, s.writers, id, p);
    QuietMove(s, id, p, base);
  }

  lemma WakeKeeps(s: State, id: nat, base: nat)
    requires Invariant(s, base) && At(s, id, Asleep)
    ensures Invariant(Move(s, id, Awake), base)
  {
    MovePlaces(s.queue, s.writers, id, Awake);
    QuietMove(s, id, Awake, base);
  }

  // The leader of the group goes on to the next stage
  lemma StageKeeps(s: State, s': State, id: nat, hand: Hand, base: nat)
    requires Invariant(s, base) && id in s.writers && Leads(s.writers[id].place) && hand.Group?
    requires s' == Move(s, id, Committing(hand.n, hand.stage)).(mem := s'.mem, durable := s'.durable) && s.durable <= s'.durable
    requires HandOk(s.queue, s.writers, hand) && HandDurable(s.queue, s.writers, hand, s'.durable)
    requires s'.mem == Taken(s.ranges) + Elements(Partly(s.queue, s.writers, hand, s.last))
    ensures Invariant(s', base)
  {
    MovePlaces(s.queue, s.writers, id, Committing(hand.n, hand.stage));
    MoveRecorded(s, s', id, Committing(hand.n, hand.stage), base);
    assert HandOf(s.queue, s'.writers) == hand;
    HandSame(s.queue, s.writers, s'.writers, hand, s.last);
  }

  lemma NextStageKeeps(s: State, id: nat, stage: Stage, base: nat)
    requires Invariant(s, base) && AtStage(s, id) && !s.writers[id].place.stage.Applying?
    requires !s.writers[id].sync || !stage.Applying?
    requires stage.Applying? ==> stage.inserted == 0
    requires stage.Unsynced? ==> s.writers[id].sync
    ensures Invariant(Move(s, id, s.writers[id].place.(stage := stage)), base)
  {
    StageKeeps(s, Move(s, id, s.writers[id].place.(stage := stage)), id, Group(s.writers[id].place.n, stage), base);
  }

  lemma SyncKeeps(s: State, id: nat, base: nat)
    requires Invariant(s, base) && AtStage(s, id) && s.writers[id].place.stage.Unsynced?
    ensures Invariant(Sync(s, id), base)
  {
    StageKeeps(s, Sync(s, id), id, Group(s.writers[id].place.n, Applying(0)), base);
  }

  lemma InsertKeeps(s: State, id: nat, n: nat, k: nat, base: nat)
    requires Invariant(s, base) && id in s.writers && s.writers[id].place == Committing(n, Applying(k))
    requires n <= |s.queue| && k < |Ops(s.queue[..n], s.writers)|
    ensures Invariant(InsertOne(s, id), base)
  {
    var s' := InsertOne(s, id);
    assert s.queue != [] && s.queue[0] == id;
    assert s'.mem == Taken(s.ranges) + Elements(Partly(s.queue, s.writers, Group(n, Applying(k + 1)), s.last)) by {
      InsertHeld(s, id, n, k);
    }
    InsertAt(s, s', id, n, k, base);
  }

  lemma InsertAt(s: State, s': State, id: nat, n: nat, k: nat, base: nat)
    requires Invariant(s, base) && id in s.writers && s.writers[id].place == Committing(n, Applying(k))
    requires s.queue != [] && s.queue[0] == id && n <= |s.queue| && k < |Ops(s.queue[..n], s.writers)|
    requires s' == Move(s, id, Committing(n, Applying(k + 1))).(mem := s'.mem)
    requires s'.mem == Taken(s.ranges) + Elements(Partly(s.queue, s.writers, Group(n, Applying(k + 1)), s.last))
    ensures Invariant(s', base)
  {
    assert HandOf(s.queue, s.writers) == Group(n, Applying(k));
    StageKeeps(s, s', id, Group(n, Applying(k + 1)), base);
  }

  lemma InsertHeld(s: State, id: nat, n: nat, k: nat)
    requires Known(s.queue, s.writers) && n <= |s.queue| && k < |Ops(s.queue[..n], s.writers)|
    requires id in s.writers && s.writers[id].place == Committing(n, Applying(k)) && s.queue[0] == id
    requires Held(s)
    ensures InsertOne(s, id).mem == Taken(s.ranges) + Elements(Partly(s.queue, s.writers, Group(n, Applying(k + 1)), s.last))
  {
    assert HandOf(s.queue, s.writers) == Group(n, Applying(k));
    PartlyNext(s.queue, s.writers, n, k, s.last);
  }

  lemma PartlyNext(queue: seq<nat>, writers: map<nat, Writer>, n: nat, k: nat, last: nat)
    requires Known(queue, writers) && n <= |queue| && k < |Ops(queue[..n], writers)|
    ensures Elements(Partly(queue, writers, Group(n, Applying(k + 1)), last)) ==
            Elements(Partly(queue, writers, Group(n, Applying(k)), last)) + {Numbered(Ops(queue[..n], writers), last + 1)[k]}
  {
    var es := Numbered(Ops(queue[..n], writers), last + 1);
    assert es[..k + 1] == es[..k] + [es[k]];
  }

  lemma SnapshotKeeps(s: State, base: nat)
    requires Invariant(s, base)
    ensures Invariant(s.(snapshots := s.snapshots + {s.last}), base)
  {
    ContiguousEnds(s.ranges, base, s.last);
  }

  lemma {:induction false} EndsGrow(ranges: seq<Range>, base: nat, last: nat, i: nat, j: nat)
    requires Contiguous(ranges, base, last) && i <= j < |ranges|
    ensures ranges[i].first <= ranges[j].first && (i < j ==> End(ranges[i]) <= ranges[j].first)
    decreases j - i
  {
    if i < j {
      EndsGrow(ranges, base, last, i, j - 1);
    }
  }

  lemma ContiguousEnds(ranges: seq<Range>, base: nat, last: nat)
    requires Contiguous(ranges, base, last)
    ensures base <= last && forall r :: r in ranges ==> base < r.first && End(r) <= last + 1
  {
    forall i | 0 <= i < |ranges| ensures base < ranges[i].first && End(ranges[i]) <= last + 1 {
      EndsGrow(ranges, base, last, 0, i);
      EndsGrow(ranges, base, last, i, |ranges| - 1);
    }
    if ranges != [] {
      assert ranges[0] in ranges;
    }
  }

  // ---- Arriving ----

  lemma ArriveHand(queue: seq<nat>, writers: map<nat, Writer>, id: nat, w: Writer, hand: Hand, last: nat)
    requires Known(queue, writers) && id !in writers && HandOk(queue, writers, hand)
    requires hand.Group? ==> hand.n <= |queue|
    ensures HandOk(queue + [id], writers[id := w], hand)
    ensures Partly(queue + [id], writers[id := w], hand, last) == Partly(queue, writers, hand, last)
  {
    var q', w' := queue + [id], writers[id := w];
    if hand.Group? {
      assert q'[..hand.n] == queue[..hand.n];
      OpsSame(queue[..hand.n], writers, w');
      assert q'[..|queue|] == queue;
      forall i | 0 < i < hand.n ensures !Stops(q', w', i) {
        assert !Stops(queue, writers, i);
        SizeSame(queue, q', writers, w', i + 1);
      }
    }
  }

  lemma ArriveRecorded(s: State, id: nat, batch: Option<Batch>, sync: bool, base: nat)
    requires Recorded(s, base) && id !in s.writers
    ensures Recorded(Arrive(s, id, batch, sync), base)
  {
    ResultsKnown(s.writers, s.arrivals, s.results, s.queue);
    EffectiveSame(s.results, s.writers, Arrive(s, id, batch, sync).writers);
  }

  lemma ArriveQueue(queue: seq<nat>, writers: map<nat, Writer>, id: nat, w: Writer)
    requires QueueOk(queue, writers) && PlacesOk(queue, writers) && id !in writers && w.place.Awake? && !w.done
    ensures QueueOk(queue + [id], writers[id := w]) && PlacesOk(queue + [id], writers[id := w])
  {
  }

  lemma ArriveOrderly(s: State, id: nat, batch: Option<Batch>, sync: bool)
    requires Orderly(s) && Held(s) && id !in s.writers
    ensures Orderly(Arrive(s, id, batch, sync)) && Held(Arrive(s, id, batch, sync))
  {
    var s' := Arrive(s, id, batch, sync);
    var hand := HandOf(s.queue, s.writers);
    ArriveQueue(s.queue, s.writers, id, s'.writers[id]);
    ArriveHand(s.queue, s.writers, id, s'.writers[id], hand, s.last);
    assert HandOf(s'.queue, s'.writers) == hand;
    assert hand.Group? ==> s'.queue[..hand.n] == s.queue[..hand.n];
  }

  lemma ArriveKeeps(s: State, id: nat, batch: Option<Batch>, sync: bool, base: nat)
    requires Invariant(s, base) && id !in s.writers
    ensures Invariant(Arrive(s, id, batch, sync), base)
  {
    ArriveOrderly(s, id, batch, sync);
    ArriveRecorded(s, id, batch, sync, base);
  }

  // ---- Taking a group off the queue ----

  lemma QueueParts(queue: seq<nat>, n: nat)
    requires Distinct(queue) && 0 < n <= |queue|
    ensures Distinct(queue[n..])
    ensures forall id :: id in queue[n..] ==> id in queue && id !in queue[..n] && id != queue[0]
    ensures forall id :: id in queue <==> id in queue[..n] || id in queue[n..]
    ensures queue[0] in queue[..n]
    ensures n < |queue| ==> queue[n..][0] == queue[n]
  {
    assert queue == queue[..n] + queue[n..];
    forall id | id in queue[n..] ensures id !in queue[..n] {
      var j :| 0 <= j < |queue| - n && queue[n..][j] == id;
      assert queue[n + j] == id;
    }
    assert queue[..n][0] == queue[0];
  }

  lemma PopQueue(s: State, n: nat, status: Status)
    requires QueueOk(s.queue, s.writers) && PlacesOk(s.queue, s.writers) && 0 < n <= |s.queue|
    ensures var s' := Pop(s, n, status); QueueOk(s'.queue, s'.writers)
  {
    QueueParts(s.queue, n);
  }

  lemma PopPlaces(s: State, n: nat, status: Status)
    requires QueueOk(s.queue, s.writers) && PlacesOk(s.queue, s.writers) && 0 < n <= |s.queue|
    ensures var s' := Pop(s, n, status); PlacesOk(s'.queue, s'.writers)
  {
    QueueParts(s.queue, n);
  }

  lemma PopHand(s: State, n: nat, status: Status)
    requires QueueOk(s.queue, s.writers) && PlacesOk(s.queue, s.writers) && 0 < n <= |s.queue|
    ensures var s' := Pop(s, n, status); Known(s'.queue, s'.writers) && HandOf(s'.queue, s'.writers) == Nothing
  {
    QueueParts(s.queue, n);
  }

  lemma PopArrivals(s: State, n: nat, status: Status)
    requires 0 < n <= |s.queue|
    ensures var s' := Pop(s, n, status);
            Ids(s'.results) + s'.queue == Ids(s.results) + s.queue &&
            (forall x :: x in s.results ==> x in s'.results) &&
            (forall id :: id in s.queue[..n] ==> (id, status) in s'.results)
  {
    var s' := Pop(s, n, status);
    assert Ids(s'.results) == Ids(s.results) + s.queue[..n];
    assert s.queue == s.queue[..n] + s'.queue;
    forall id | id in s.queue[..n] ensures (id, status) in s'.results {
      var i :| 0 <= i < n && s.queue[..n][i] == id;
      assert Results(s.queue[..n], status)[i] == (id, status);
    }
  }

  lemma PopAnswers(s: State, n: nat, status: Status, results: seq<(nat, Status)>)
    requires 0 < n <= |s.queue|
    requires forall id :: id in s.writers && s.writers[id].done ==> (id, s.writers[id].status) in results
    requires forall id :: id in s.writers && s.writers[id].place.Returned? ==> (id, s.writers[id].place.result) in results
    requires forall id :: id in s.queue[..n] ==> (id, status) in results
    ensures var w' := Pop(s, n, status).writers;
            w'.Keys == s.writers.Keys &&
            (forall id :: id in w' && w'[id].done ==> (id, w'[id].status) in results) &&
            (forall id :: id in w' && w'[id].place.Returned? ==> (id, w'[id].place.result) in results)
  {
    assert s.queue[..n][0] == s.queue[0];
  }

  lemma PopHistory(s: State, n: nat, status: Status)
    requires HistoryOk(s.writers, s.arrivals, s.results, s.queue) && 0 < n <= |s.queue|
    ensures var s' := Pop(s, n, status); HistoryOk(s'.writers, s'.arrivals, s'.results, s'.queue)
  {
    var s' := Pop(s, n, status);
    PopArrivals(s, n, status);
    PopAnswers(s, n, status, s'.results);
    assert forall id :: id in s'.writers <==> id in s.writers;
  }

  function BatchIds(ids: seq<nat>, writers: map<nat, Writer>): seq<nat>
    requires Known(ids, writers)
  {
    if ids == [] then []
    else
      var id := ids[|ids| - 1];
      BatchIds(ids[..|ids| - 1], writers) + if writers[id].batch.Some? then [id] else []
  }

  lemma EffectiveSnoc(results: seq<(nat, Status)>, id: nat, status: Status, writers: map<nat, Writer>)
    requires id in writers
    ensures Effective(results + [(id, status)], writers) ==
            Effective(results, writers) + if writers[id].batch.Some? && status == OK then [id] else []
  {
    assert (results + [(id, status)])[..|results|] == results;
  }

  lemma {:induction false} EffectiveJoin(results: seq<(nat, Status)>, ids: seq<nat>, status: Status, writers: map<nat, Writer>)
    requires Known(ids, writers)
    ensures Effective(results + Results(ids, status), writers) ==
            Effective(results, writers) + if status == OK then BatchIds(ids, writers) else []
  {
    if ids == [] {
      assert results + Results(ids, status) == results;
    } else {
      var id, init := ids[|ids| - 1], ids[..|ids| - 1];
      EffectiveJoin(results, init, status, writers);
      EffectiveSnoc(results + Results(init, status), id, status, writers);
      assert results + Results(ids, status) == results + Results(init, status) + [(id, status)];
    }
  }

  lemma ContiguousSnoc(ranges: seq<Range>, r: Range, base: nat, last: nat)
    requires Contiguous(ranges, base, last) && r.first == last + 1
    ensures Contiguous(ranges + [r], base, last + |r.ops|)
  {
  }

  lemma OkIdsSnoc(ranges: seq<Range>, r: Range)
    ensures OkIds(ranges + [r]) == OkIds(ranges) + if r.ok then [r.id] else []
  {
    assert (ranges + [r])[..|ranges|] == ranges;
  }

  lemma {:induction false} RangesJoin(ranges: seq<Range>, ids: seq<nat>, writers: map<nat, Writer>, base: nat, last: nat, ok: bool)
    requires Known(ids, writers) && Contiguous(ranges, base, last)
    ensures Contiguous(ranges + RangesOf(ids, writers, last + 1, ok), base, last + |Ops(ids, writers)|)
    ensures OkIds(ranges + RangesOf(ids, writers, last + 1, ok)) == OkIds(ranges) + if ok then BatchIds(ids, writers) else []
  {
    if ids == [] {
      assert ranges + RangesOf(ids, writers, last + 1, ok) == ranges;
    } else {
      var id, init := ids[|ids| - 1], ids[..|ids| - 1];
      RangesJoin(ranges, init, writers, base, last, ok);
      RangesLast(ranges + RangesOf(init, writers, last + 1, ok), ranges, ids, writers, base, last, ok);
    }
  }

  lemma RangesLast(before: seq<Range>, ranges: seq<Range>, ids: seq<nat>, writers: map<nat, Writer>, base: nat, last: nat, ok: bool)
    requires Known(ids, writers) && ids != []
    requires before == ranges + RangesOf(ids[..|ids| - 1], writers, last + 1, ok)
    requires Contiguous(before, base, last + |Ops(ids[..|ids| - 1], writers)|)
    ensures var all, id := ranges + RangesOf(ids, writers, last + 1, ok), ids[|ids| - 1];
            Contiguous(all, base, last + |Ops(ids, writers)|) &&
            OkIds(all) == OkIds(before) + if ok && writers[id].batch.Some? then [id] else []
  {
    var id, n := ids[|ids| - 1], last + |Ops(ids[..|ids| - 1], writers)|;
    if writers[id].batch.Some? {
      var r := Range(id, n + 1, writers[id].batch.value.ops, ok);
      ContiguousSnoc(before, r, base, n);
      OkIdsSnoc(before, r);
      assert ranges + RangesOf(ids, writers, last + 1, ok) == before + [r];
    } else {
      assert ranges + RangesOf(ids, writers, last + 1, ok) == before;
    }
  }

  lemma {:induction false} RangesOfFacts(ids: seq<nat>, writers: map<nat, Writer>, first: nat, ok: bool)
    requires Known(ids, writers)
    ensures forall r :: r in RangesOf(ids, writers, first, ok) ==>
              r.id in ids && writers[r.id].batch.Some? && writers[r.id].batch.value.ops == r.ops && r.first >= first && r.ok == ok
  {
    if ids != [] {
      RangesOfFacts(ids[..|ids| - 1], writers, first, ok);
    }
  }

  lemma NumberedJoin(a: seq<Op>, b: seq<Op>, first: nat)
    ensures Numbered(a + b, first) == Numbered(a, first) + Numbered(b, first + |a|)
  {
  }

  lemma {:induction false} TakenOf(ids: seq<nat>, writers: map<nat, Writer>, first: nat)
    requires Known(ids, writers)
    ensures Taken(RangesOf(ids, writers, first, true)) == Elements(Numbered(Ops(ids, writers), first))
  {
    if ids != [] {
      var id, init := ids[|ids| - 1], ids[..|ids| - 1];
      var before := RangesOf(init, writers, first, true);
      TakenOf(init, writers, first);
      if writers[id].batch.Some? {
        var r := Range(id, first + |Ops(init, writers)|, writers[id].batch.value.ops, true);
        NumberedJoin(Ops(init, writers), r.ops, first);
        TakenJoin(before, [r]);
        assert r in [r];
        assert Taken([r]) == Elements(Numbered(r.ops, r.first));
      } else {
        assert Ops(ids, writers) == Ops(init, writers);
      }
    }
  }

  lemma TakenJoin(a: seq<Range>, b: seq<Range>)
    ensures Taken(a + b) == Taken(a) + Taken(b)
  {
    assert forall r :: r in a + b <==> r in a || r in b;
  }

  lemma PopBatches(s: State, n: nat, status: Status)
    requires 0 < n <= |s.queue|
    ensures SameBatches(s.writers, Pop(s, n, status).writers)
  {
  }

  // The results of a group, and the ranges they stand for
  lemma PopEffective(s: State, n: nat, status: Status)
    requires Known(s.queue, s.writers) && HistoryOk(s.writers, s.arrivals, s.results, s.queue) && 0 < n <= |s.queue|
    ensures var s' := Pop(s, n, status);
            Effective(s'.results, s'.writers) ==
            Effective(s.results, s.writers) + if status == OK then BatchIds(s.queue[..n], s.writers) else []
  {
    var s' := Pop(s, n, status);
    PopBatches(s, n, status);
    PopHistory(s, n, status);
    ResultsKnown(s'.writers, s'.arrivals, s'.results, s'.queue);
    EffectiveSame(s'.results, s.writers, s'.writers);
    EffectiveJoin(s.results, s.queue[..n], status, s.writers);
  }

  lemma PopDurable(s: State, n: nat, status: Status)
    requires 0 < n <= |s.queue| && Known(s.queue, s.writers) && DurableOk(s.writers, s.results, s.durable)
    requires status == OK ==>
               forall id :: id in s.queue[..n] && s.writers[id].sync && s.writers[id].batch.Some? ==> id in s.durable
    ensures var s' := Pop(s, n, status); DurableOk(s'.writers, s'.results, s'.durable)
  {
    var s' := Pop(s, n, status);
    forall id | id in s'.writers && s'.writers[id].sync && s'.writers[id].batch.Some? && (id, OK) in s'.results
      ensures id in s'.durable
    {
      PopBatches(s, n, status);
      if (id, OK) !in s.results {
        var i :| 0 <= i < |s'.results| && s'.results[i] == (id, OK);
        assert s'.results[i] == Results(s.queue[..n], status)[i - |s.results|];
        assert id == s.queue[..n][i - |s.results|];
      }
    }
  }

  lemma PopOrderly(s: State, n: nat, status: Status)
    requires QueueOk(s.queue, s.writers) && PlacesOk(s.queue, s.writers) && 0 < n <= |s.queue|
    ensures Orderly(Pop(s, n, status))
    ensures var s' := Pop(s, n, status); Partly(s'.queue, s'.writers, HandOf(s'.queue, s'.writers), s'.last) == []
  {
    PopQueue(s, n, status);
    PopPlaces(s, n, status);
    PopHand(s, n, status);
  }

  // Leaving with nothing committed: no room in the memtable, or no batch
  lemma LeaveKeeps(s: State, id: nat, status: Status, base: nat)
    requires Invariant(s, base) && At(s, id, MakingRoom)
    requires status != OK || s.writers[id].batch.None?
    ensures Invariant(Pop(s, 1, status), base)
  {
    assert s.queue[0] == id && HandOf(s.queue, s.writers) == Nothing;
    assert s.queue[..1] == [id];
    PopOrderly(s, 1, status);
    LeaveRecorded(s, id, status, base);
  }

  lemma LeaveRecorded(s: State, id: nat, status: Status, base: nat)
    requires Recorded(s, base) && Known(s.queue, s.writers) && s.queue != [] && s.queue[0] == id
    requires status != OK || s.writers[id].batch.None?
    ensures Recorded(Pop(s, 1, status), base)
  {
    assert s.queue[..1] == [id] && [id][..0] == [];
    assert s.writers[id].batch.None? ==> BatchIds([id], s.writers) == [];
    PopHistory(s, 1, status);
    PopEffective(s, 1, status);
    PopDurable(s, 1, status);
    PopBatches(s, 1, status);
  }

  lemma LeadKeeps(s: State, id: nat, n: nat, base: nat)
    requires Invariant(s, base) && At(s, id, MakingRoom) && IsGroup(s.queue, s.writers, n)
    ensures Invariant(Lead(s, id, n), base)
  {
    if s.writers[id].batch.None? {
      LeaveKeeps(s, id, OK, base);
    } else {
      assert HandOf(s.queue, s.writers) == Nothing;
      StageKeeps(s, Move(s, id, Committing(n, Unlogged)), id, Group(n, Unlogged), base);
    }
  }

  // ---- Committing ----

  lemma PublishedHeld(s: State, n: nat, stage: Stage)
    requires Known(s.queue, s.writers) && 0 < n <= |s.queue| && HandOf(s.queue, s.writers) == Group(n, stage) && Held(s)
    requires stage.Broken? || (stage.Applying? && stage.inserted == |Ops(s.queue[..n], s.writers)|)
    ensures s.mem == Taken(Published(s, n, stage).ranges)
  {
    var ids := s.queue[..n];
    var added := RangesOf(ids, s.writers, s.last + 1, stage.Applying?);
    TakenJoin(s.ranges, added);
    if stage.Applying? {
      TakenOf(ids, s.writers, s.last + 1);
      var es := Numbered(Ops(ids, s.writers), s.last + 1);
      assert es[..|es|] == es;
    } else {
      RangesOfFacts(ids, s.writers, s.last + 1, false);
      assert Taken(added) == {};
    }
  }

  lemma PublishedRanges(s: State, n: nat, stage: Stage, base: nat)
    requires Known(s.queue, s.writers) && 0 < n <= |s.queue| && Contiguous(s.ranges, base, s.last)
    ensures var s1 := Published(s, n, stage);
            Contiguous(s1.ranges, base, s1.last) &&
            OkIds(s1.ranges) == OkIds(s.ranges) + if stage.Applying? then BatchIds(s.queue[..n], s.writers) else []
  {
    RangesJoin(s.ranges, s.queue[..n], s.writers, base, s.last, stage.Applying?);
  }

  lemma PublishedFacts(s: State, n: nat, stage: Stage)
    requires Known(s.queue, s.writers) && 0 < n <= |s.queue| && SnapshotsOk(s.snapshots, s.ranges, s.last)
    requires forall r :: r in s.ranges ==>
               r.id in s.writers && s.writers[r.id].batch.Some? && s.writers[r.id].batch.value.ops == r.ops
    ensures var s1 := Published(s, n, stage);
            SnapshotsOk(s1.snapshots, s1.ranges, s1.last) &&
            forall r :: r in s1.ranges ==>
              r.id in s.writers && s.writers[r.id].batch.Some? && s.writers[r.id].batch.value.ops == r.ops
  {
    RangesOfFacts(s.queue[..n], s.writers, s.last + 1, stage.Applying?);
  }

  lemma FinishRecorded(s: State, n: nat, stage: Stage, status: Status, base: nat)
    requires Known(s.queue, s.writers) && 0 < n <= |s.queue| && Recorded(s, base)
    requires status == OK <==> stage.Applying?
    requires stage.Applying? ==>
               forall id :: id in s.queue[..n] && s.writers[id].sync && s.writers[id].batch.Some? ==> id in s.durable
    ensures Recorded(Pop(Published(s, n, stage), n, status), base)
  {
    var s1 := Published(s, n, stage);
    PublishedRanges(s, n, stage, base);
    PublishedFacts(s, n, stage);
    PopHistory(s1, n, status);
    PopEffective(s1, n, status);
    PopDurable(s1, n, status);
    PopBatches(s1, n, status);
  }

  // A sync writer never rides under a leader that does not sync
  lemma SyncGroup(queue: seq<nat>, writers: map<nat, Writer>, n: nat, id: nat)
    requires Known(queue, writers) && RidesAlong(queue, writers, n) && id in queue[..n] && writers[id].sync
    ensures writers[queue[0]].sync
  {
    var i :| 0 <= i < n && queue[..n][i] == id;
    if i > 0 {
      assert !Stops(queue, writers, i);
    }
  }

  lemma GroupDurable(s: State, n: nat, stage: Stage)
    requires Orderly(s) && HandOf(s.queue, s.writers) == Group(n, stage) && stage.Applying?
    ensures forall id :: id in s.queue[..n] && s.writers[id].sync ==> id in s.durable
  {
    forall id | id in s.queue[..n] && s.writers[id].sync ensures id in s.durable {
      SyncGroup(s.queue, s.writers, n, id);
    }
  }

  lemma FinishHeld(s: State, n: nat, stage: Stage, status: Status)
    requires Orderly(s) && HandOf(s.queue, s.writers) == Group(n, stage) && Held(s)
    requires stage.Broken? || (stage.Applying? && stage.inserted == |Ops(s.queue[..n], s.writers)|)
    ensures Orderly(Pop(Published(s, n, stage), n, status)) && Held(Pop(Published(s, n, stage), n, status))
  {
    PublishedHeld(s, n, stage);
    PopOrderly(Published(s, n, stage), n, status);
  }

  lemma FinishKeeps(s: State, n: nat, stage: Stage, base: nat)
    requires Invariant(s, base) && HandOf(s.queue, s.writers) == Group(n, stage)
    requires stage.Broken? || (stage.Applying? && stage.inserted == |Ops(s.queue[..n], s.writers)|)
    ensures Invariant(Finish(s, n, stage), base)
  {
    var status := if stage.Broken? then Error(stage.code) else OK;
    FinishHeld(s, n, stage, status);
    if stage.Applying? {
      GroupDurable(s, n, stage);
    }
    FinishRecorded(s, n, stage, status, base);
  }

  // ---- Whole runs ----

  lemma StepKeeps(s: State, step: Step, base: nat)
    requires Invariant(s, base) && Enabled(s, step)
    ensures Invariant(Apply(s, step), base)
  {
    match step
    case Arriving(id, batch, sync) => ArriveKeeps(s, id, batch, sync, base);
    case Checking(id) => CheckKeeps(s, id, base);
    case Waking(id) => WakeKeeps(s, id, base);
    case NoRoom(id, code) => LeaveKeeps(s, id, Error(code), base);
    case Leading(id, n) => LeadKeeps(s, id, n, base);
    case Logging(id) => NextStageKeeps(s, id, if s.writers[id].sync then Unsynced else Applying(0), base);
    case LogFailing(id, code) => NextStageKeeps(s, id, Broken(code, false), base);
    case Syncing(id) => SyncKeeps(s, id, base);
    case SyncFailing(id, code) => NextStageKeeps(s, id, Broken(code, true), base);
    case Inserting(id) => InsertKeeps(s, id, s.writers[id].place.n, s.writers[id].place.stage.inserted, base);
    case Finishing(id) => FinishKeeps(s, s.writers[id].place.n, s.writers[id].place.stage, base);
    case TakingSnapshot => SnapshotKeeps(s, base);
  }

  ghost predicate Possible(s: State, steps: seq<Step>)
    decreases |steps|
  {
    steps == [] || (Enabled(s, steps[0]) && Possible(Apply(s, steps[0]), steps[1..]))
  }

  ghost function After(s: State, steps: seq<Step>): State
    requires Possible(s, steps)
    decreases |steps|
  {
    if steps == [] then s else After(Apply(s, steps[0]), steps[1..])
  }

  lemma {:induction false} RunKeeps(s: State, steps: seq<Step>, base: nat)
    requires Invariant(s, base) && Possible(s, steps)
    ensures Invariant(After(s, steps), base)
    decreases |steps|
  {
    if steps != [] {
      StepKeeps(s, steps[0], base);
      RunKeeps(Apply(s, steps[0]), steps[1..], base);
    }
  }

  // At most one writer is past the queue's head, and nobody sleeps who should not
  ghost predicate OneLeader(s: State) {
    && (forall a, b :: a in s.writers && b in s.writers && Leads(s.writers[a].place) && Leads(s.writers[b].place) ==> a == b)
    && (forall id :: id in s.writers && s.writers[id].place.Asleep? ==> !s.writers[id].done && s.queue != [] && id != s.queue[0])
  }

  // Writers finish once each in the order they came; those whose batch took effect did so in that order,
  // with contiguous sequence numbers; the others' batches left nothing behind.
  ghost predicate InOrder(s: State, base: nat) {
    && s.arrivals == Ids(s.results) + s.queue && Distinct(s.arrivals)
    && Contiguous(s.ranges, base, s.last)
    && OkIds(s.ranges) == Effective(s.results, s.writers)
    && (forall r :: r in s.ranges ==> r.id in s.writers && s.writers[r.id].batch == Some(Batch(r.ops, SizeOf(s.writers[r.id]))))
    && (forall id :: id in s.writers && s.writers[id].place.Returned? ==> (id, s.writers[id].place.result) in s.results)
  }

  // A reader at last_sequence_ or at any snapshot sees each batch whole or not at all
  ghost predicate AllOrNothing(s: State) {
    && (forall e :: e in s.mem && e.sequence <= s.last ==> e in Taken(s.ranges))
    && Taken(s.ranges) <= s.mem
    && (forall q: nat, r :: (q in s.snapshots || q == s.last) && r in s.ranges ==> Whole(r, q))
  }

  ghost predicate Whole(r: Range, q: nat) {
    (forall e :: e in Numbered(r.ops, r.first) ==> e.sequence <= q) || (forall e :: e in Numbered(r.ops, r.first) ==> e.sequence > q)
  }

  // A sync write that returned OK is behind a sync
  ghost predicate SyncedWrites(s: State) {
    forall id :: id in s.writers && s.writers[id].place == Returned(OK) && s.writers[id].sync && s.writers[id].batch.Some? ==>
      id in s.durable
  }

  lemma NothingEarly(s: State, e: Entry)
    requires Known(s.queue, s.writers) && Held(s) && e in s.mem && e.sequence <= s.last
    ensures e in Taken(s.ranges)
  {
  }

  ghost predicate Guaranteed(s: State, base: nat) {
    OneLeader(s) && InOrder(s, base) && AllOrNothing(s) && SyncedWrites(s)
  }

  lemma HeldMeans(s: State, base: nat)
    requires Known(s.queue, s.writers) && Held(s) && Contiguous(s.ranges, base, s.last)
    requires SnapshotsOk(s.snapshots, s.ranges, s.last)
    ensures AllOrNothing(s)
  {
    forall e | e in s.mem && e.sequence <= s.last ensures e in Taken(s.ranges) {
      NothingEarly(s, e);
    }
    ContiguousEnds(s.ranges, base, s.last);
    assert Taken(s.ranges) <= s.mem;
    forall q: nat, r | (q in s.snapshots || q == s.last) && r in s.ranges ensures Whole(r, q) {
      NumberedBounds(r.ops, r.first);
    }
  }

  lemma NumberedBounds(ops: seq<Op>, first: nat)
    ensures forall e :: e in Numbered(ops, first) ==> first <= e.sequence < first + |ops|
  {
  }

  lemma OrderlyMeans(s: State)
    requires Orderly(s)
    ensures OneLeader(s)
  {
  }

  lemma RecordedMeans(s: State, base: nat)
    requires Recorded(s, base)
    ensures InOrder(s, base) && SyncedWrites(s)
  {
  }

  lemma InvariantMeans(s: State, base: nat)
    requires Invariant(s, base)
    ensures Guaranteed(s, base)
  {
    HeldMeans(s, base);
    OrderlyMeans(s);
    RecordedMeans(s, base);
  }

  // Any number of writers, in any interleaving
  lemma EveryRun(base: nat, steps: seq<Step>)
    requires Possible(Initial(base), steps)
    ensures Guaranteed(After(Initial(base), steps), base)
  {
    InitialOk(base);
    RunKeeps(Initial(base), steps, base);
    InvariantMeans(After(Initial(base), steps), base);
  }

  // ---- The size of a group ----

  // A group of one may have any size. A larger one has at most 1 MiB, and if its first batch has at most 128 KiB,
  // at most 128 KiB more than that; none of its writers waits for a sync its leader does not do; and it stops short
  // of the end of the queue only before a writer that would go against this.
  lemma GroupBounded(queue: seq<nat>, writers: map<nat, Writer>, n: nat, i: nat)
    requires Known(queue, writers) && IsGroup(queue, writers, n) && writers[queue[0]].batch.Some? && 0 < i <= n && i < |queue|
    ensures var leader, w := writers[queue[0]], writers[queue[i]];
            var first, total := leader.batch.value.size, SizeUpTo(queue, writers, i + 1);
            var fits := total <= 1048576 && (first <= 131072 ==> total <= first + 131072);
            if i < n then (w.sync ==> leader.sync) && (w.batch.Some? ==> fits)
            else (w.sync && !leader.sync) || (w.batch.Some? && !fits)
  {
    assert i < n ==> !Stops(queue, writers, i);
  }
}
