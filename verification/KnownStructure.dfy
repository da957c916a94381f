/** The memo of a verify run, read back from the log of earlier runs (verify.go). */
module KnownStructure {
  import opened Wrappers
  import opened Times
  import opened VerifyLog
  import opened Verify
  import opened DagState

  const STALENESS_SECONDS := 90 * 24 * 60 * 60

  predicate Stale(r: Record, now: Time) {
    Nanoseconds(now) - Nanoseconds(r.time) > STALENESS_SECONDS * NANOS_PER_SECOND
  }

  function KnownFrom(records: seq<Record>, now: Time): Structure {
    if records == [] then map[]
    else
      var last := |records| - 1;
      var r, init := records[last], KnownFrom(records[..last], now);
      if Stale(r, now) then init else init[r.node := r.children]
  }

  method ParseKnownStructure(tf: TimeFormat, text: string, now: Time) returns (known: Option<Structure>)
    ensures known.Some? <==> ParsedLog(tf, text).ok
    ensures known.Some? ==> known.value == KnownFrom(ParsedLog(tf, text).records, now)
  {
    var records, ok := ParseVerifyOutput(tf, text);
    var structure: Structure := map[];
    for i := 0 to |records|
      invariant structure == KnownFrom(records[..i], now)
    {
      assert records[..i + 1][..i] == records[..i];
      if Stale(records[i], now) {
        continue;
      }
      structure := structure[records[i].node := records[i].children];
    }
    assert records[..|records|] == records;
    return if ok then Some(structure) else None;
  }

  /** How old the record is, in nanoseconds. */
  function Age(r: Record, now: Time): int {
    Nanoseconds(now) - Nanoseconds(r.time)
  }

  const NINETY_DAYS := 7_776_000 * NANOS_PER_SECOND

  /** i is the last record of n that is not more than ninety days old. */
  predicate LastFresh(records: seq<Record>, now: Time, n: Node, i: int) {
    && 0 <= i < |records| && records[i].node == n && Age(records[i], now) <= NINETY_DAYS
    && forall j :: i < j < |records| && records[j].node == n ==> Age(records[j], now) > NINETY_DAYS
  }

  /**
   The memo has exactly the nodes with a record that is not more than ninety days
   old, as the last of those has them.
   */
  lemma {:induction false} LastFreshRecordWins(records: seq<Record>, now: Time, n: Node)
    ensures n in KnownFrom(records, now) <==>
      exists i :: 0 <= i < |records| && records[i].node == n && Age(records[i], now) <= NINETY_DAYS
    ensures n in KnownFrom(records, now) ==>
      exists i :: LastFresh(records, now, n, i) && KnownFrom(records, now)[n] == records[i].children
  {
    if records != [] {
      var last := |records| - 1;
      var init := records[..last];
      LastFreshRecordWins(init, now, n);
      if records[last].node == n && Age(records[last], now) <= NINETY_DAYS {
        assert LastFresh(records, now, n, last);
      } else if n in KnownFrom(init, now) {
        var i :| LastFresh(init, now, n, i) && KnownFrom(init, now)[n] == init[i].children;
        assert records[i] == init[i];
        assert LastFresh(records, now, n, i);
      }
      assert forall i :: 0 <= i < last ==> init[i] == records[i];
    }
  }

  lemma MemoIsAttested(records: seq<Record>, now: Time, n: Node)
    requires n in KnownFrom(records, now)
    ensures Attested(records, n, KnownFrom(records, now)[n])
  {
    LastFreshRecordWins(records, now, n);
    var i :| LastFresh(records, now, n, i) && KnownFrom(records, now)[n] == records[i].children;
    assert records[i] in records;
  }

  /** From a log of true records comes a true memo. */
  lemma TrueLogGivesTrueMemo(run: Run, records: seq<Record>, now: Time)
    requires RecordsAreTrue(run, records) && run.known == KnownFrom(records, now)
    ensures KnownIsTrue(run)
  {
    forall n | n in run.known && n.dir
      ensures Children(run.wire, run.load, n) == Some(run.known[n])
    {
      MemoIsAttested(records, now, n);
    }
  }

  // ---- The log as text ----

  /** Cutting times to the second loses nothing else. */
  lemma {:induction false} CutRecords(records: seq<Record>, n: Node, children: seq<Node>)
    ensures Attested(ToTheSecondAll(records), n, children) <==> Attested(records, n, children)
  {
    if records != [] {
      CutRecords(records[1..], n, children);
      var cut := ToTheSecondAll(records);
      assert records == [records[0]] + records[1..];
      assert cut[0] in cut && records[0] in records;
      assert forall r :: r in records[1..] ==> r in records;
      assert forall r :: r in cut[1..] ==> r in cut;
    }
  }

  lemma CutRecordsStayTrue(run: Run, records: seq<Record>)
    requires RecordsAreTrue(run, records)
    ensures RecordsAreTrue(run, ToTheSecondAll(records))
  {
    var cut := ToTheSecondAll(records);
    forall r | r in cut && r.node.dir
      ensures Children(run.wire, run.load, r.node) == Some(r.children)
    {
      assert Attested(cut, r.node, r.children);
      CutRecords(records, r.node, r.children);
    }
  }

  lemma {:induction false} SentAreWritable(run: Run, log: seq<Event<Node>>, times: seq<Time>)
    requires |times| == |log| && forall t :: t in times ==> Writable(t)
    ensures AllWritable(Sent(run, log, times))
  {
    if log != [] {
      SentAreWritable(run, log[..|log| - 1], times[..|log| - 1]);
    }
  }

  /**
   What is read back from a log that holds the records of earlier runs is a true
   memo, and so are the records that a run with this memo appends to it; and the
   log can be read back again if the run's times can be written.
   */
  lemma LogStaysTrue(tf: TimeFormat, run: Run, earlier: seq<Record>, now: Time,
                     start: seq<Node>, s: Sys<Node>, times: seq<Time>)
    requires FormatSound(tf) && AllWritable(earlier) && RecordsAreTrue(run, earlier)
    requires run.known == KnownFrom(ParsedLog(tf, WrittenLog(tf, earlier)).records, now)
    requires Reached(VerifyGraph(run), start, s) && |times| == |s.log|
    ensures ParsedLog(tf, WrittenLog(tf, earlier)).ok && KnownIsTrue(run)
    ensures RecordsAreTrue(run, earlier + Sent(run, s.log, times))
    ensures (forall t :: t in times ==> Writable(t)) ==> AllWritable(earlier + Sent(run, s.log, times))
  {
    if forall t :: t in times ==> Writable(t) {
      SentAreWritable(run, s.log, times);
    }
    LogRoundTrip(tf, earlier);
    CutRecordsStayTrue(run, earlier);
    TrueLogGivesTrueMemo(run, ToTheSecondAll(earlier), now);
    SentRecordsAreTrue(run, start, s, times);
  }
}
