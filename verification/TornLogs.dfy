// A crash that cuts bytes off the newest log: what the log reader makes of the bytes left is what the state
// machine says a crash leaves.
module TornLogs {
  import opened Options
  import opened ByteStrings
  import LogFormat
  import LogReader
  import LogRoundTrip
  import opened Storage
  import opened StorageProofs
  import opened Recovery
  import opened StorageRuns

  // How a group is written as a record: WriteBatchInternal::Contents, which differs for different groups
  ghost predicate Injective(render: Group -> Bytes) {
    forall g, h :: render(g) == render(h) ==> g == h
  }

  function Rendered(groups: seq<Group>, render: Group -> Bytes): (rs: seq<Bytes>)
    ensures |rs| == |groups| && forall i :: 0 <= i < |groups| ==> rs[i] == render(groups[i])
  {
    if groups == [] then [] else Rendered(groups[..|groups| - 1], render) + [render(groups[|groups| - 1])]
  }

  // The records read, without their offsets
  function Payloads(records: seq<(Bytes, nat)>): (rs: seq<Bytes>)
    ensures |rs| == |records| && forall i :: 0 <= i < |records| ==> rs[i] == records[i].0
  {
    if records == [] then [] else Payloads(records[..|records| - 1]) + [records[|records| - 1].0]
  }

  // Any byte prefix of a log of groups is read as the log of its first groups, with no corruption reported
  lemma TornGroups(src: LogReader.Source, groups: seq<Group>, render: Group -> Bytes) returns (k: nat)
    requires src.initialOffset == 0 && src.file <= LogFormat.Log(src.crc, 0, Rendered(groups, render))
    ensures k <= |groups| && Payloads(src.Contents().records) == Rendered(groups[..k], render)
    ensures src.Contents().reports == []
  {
    var records := Rendered(groups, render);
    LogRoundTrip.TornLog(src, LogFormat.Log(src.crc, 0, records), records);
    k := LogRoundTrip.CompleteIsPrefix(0, records, |src.file|);
  }

  // From the records the groups are known
  lemma SameGroups(a: seq<Group>, b: seq<Group>, render: Group -> Bytes)
    requires Injective(render) && Rendered(a, render) == Rendered(b, render)
    ensures a == b
  {
    forall i | 0 <= i < |a| ensures a[i] == b[i] {
      assert Rendered(a, render)[i] == render(a[i]) && Rendered(b, render)[i] == render(b[i]);
    }
  }

  // Whatever bytes of the newest log a crash leaves, and whatever part of a deletion of files it leaves undone,
  // it is one of the crashes of the state machine: the groups recovery reads from the log are those the crashed
  // disk has there, and what is recovered reads like a prefix of the logged history
  lemma CrashedBytes(s: State, src: LogReader.Source, render: Group -> Bytes, gone: set<nat>) returns (keep: nat)
    requires Invariant(s) && Injective(render)
    requires src.initialOffset == 0 && src.file <= LogFormat.Log(src.crc, 0, Rendered(s.logs[s.logfile], render))
    ensures Possible(Up(s), Crashing(keep, gone))
    ensures forall groups :: Payloads(src.Contents().records) == Rendered(groups, render) <==>
                             groups == Crashed(s, keep).logs[s.logfile]
    ensures src.Contents().reports == []
    ensures Durably(Without(Crashed(s, keep), gone), Surviving(s, keep))
  {
    var log := s.logs[s.logfile];
    keep := TornGroups(src, log, render);
    InvariantCrash(s);
    assert Crashed(s, keep).logs[s.logfile] == log[..keep];
    forall groups | Payloads(src.Contents().records) == Rendered(groups, render) ensures groups == log[..keep] {
      SameGroups(groups, log[..keep], render);
    }
  }
}
