/** The jobs that are recorded in a bucket (internal/registry/gcs.go). */
module RegistryJobs {
  import opened Wrappers
  import opened Scores
  import opened Times
  import opened VerifyLog
  import opened Registry

  datatype CompletedJob = CompletedJob(startTime: Time, name: string, score: Score)

  const JOB_NAME_KEY := "job_name"
  const JOB_SCORE_KEY := "hex_score"

  function JobObjectName(tf: TimeFormat, j: CompletedJob): string {
    JOB_PREFIX + tf.format(j.startTime)
  }

  function JobMetadata(j: CompletedJob): Metadata {
    map[JOB_NAME_KEY := j.name, JOB_SCORE_KEY := Hex(j.score)]
  }

  method RecordBackup(tf: TimeFormat, bucket: GcsBucket, j: CompletedJob, fate: Fate) returns (ok: bool)
    modifies bucket
    ensures bucket.objects == CreateIfAbsent(old(bucket.objects), JobObjectName(tf, j), JobMetadata(j), fate)
    ensures ok <==> JobObjectName(tf, j) !in old(bucket.objects) && fate == Answered
    ensures ok ==> JobObjectName(tf, j) in bucket.objects && bucket.objects[JobObjectName(tf, j)] == JobMetadata(j)
  {
    ok := bucket.CreateObject(JobObjectName(tf, j), JobMetadata(j), fate);
  }

  function ParsedJob(tf: TimeFormat, name: string, metadata: Metadata): Option<CompletedJob> {
    if !(JOB_PREFIX <= name) then None
    else
      var time := tf.parse(name[|JOB_PREFIX|..]);
      if time.None? || JOB_NAME_KEY !in metadata || JOB_SCORE_KEY !in metadata then None
      else if ParsedScore(metadata[JOB_SCORE_KEY]).None? then None
      else Some(CompletedJob(time.value, metadata[JOB_NAME_KEY], ParsedScore(metadata[JOB_SCORE_KEY]).value))
  }

  function JobToTheSecond(j: CompletedJob): CompletedJob {
    j.(startTime := ToTheSecond(j.startTime))
  }

  lemma JobRoundTrip(tf: TimeFormat, j: CompletedJob)
    requires FormatSound(tf) && Writable(j.startTime)
    ensures ParsedJob(tf, JobObjectName(tf, j), JobMetadata(j)) == Some(JobToTheSecond(j))
  {
    assert JobObjectName(tf, j)[|JOB_PREFIX|..] == tf.format(j.startTime);
    assert tf.parse(tf.format(j.startTime)) == Some(ToTheSecond(j.startTime));
    assert JOB_NAME_KEY[0] == 'j' && JOB_SCORE_KEY[0] == 'h';
    HexBijection(j.score, Hex(j.score));
  }

  /** A record parses as a job if and only if its name has the time in it, and its metadata the name and the score. */
  lemma JobParsesIff(tf: TimeFormat, name: string, metadata: Metadata, j: CompletedJob)
    ensures ParsedJob(tf, name, metadata) == Some(j) <==>
      && JOB_PREFIX <= name && tf.parse(name[|JOB_PREFIX|..]) == Some(j.startTime)
      && JOB_NAME_KEY in metadata && metadata[JOB_NAME_KEY] == j.name
      && JOB_SCORE_KEY in metadata && metadata[JOB_SCORE_KEY] == Hex(j.score)
  {
    if JOB_SCORE_KEY in metadata {
      HexBijection(j.score, metadata[JOB_SCORE_KEY]);
    }
  }

  /** An object as a listing shows it. */
  datatype Listed = Listed(name: string, metadata: Metadata)

  function ParsedJobs(tf: TimeFormat, listing: seq<Listed>): Option<seq<CompletedJob>> {
    if listing == [] then Some([])
    else
      var last := |listing| - 1;
      var init := ParsedJobs(tf, listing[..last]);
      if listing[last].name == JOB_PREFIX then init
      else
        var j := ParsedJob(tf, listing[last].name, listing[last].metadata);
        if init.Some? && j.Some? then Some(init.value + [j.value]) else None
  }

  lemma {:induction false} ParsedJobsFail(tf: TimeFormat, listing: seq<Listed>, k: nat)
    requires k < |listing| && listing[k].name != JOB_PREFIX
    requires ParsedJob(tf, listing[k].name, listing[k].metadata).None?
    ensures ParsedJobs(tf, listing).None?
  {
    if k < |listing| - 1 {
      ParsedJobsFail(tf, listing[..|listing| - 1], k);
    }
  }

  method ListBackups(tf: TimeFormat, listing: seq<Listed>) returns (jobs: Option<seq<CompletedJob>>)
    ensures jobs == ParsedJobs(tf, listing)
  {
    var found: seq<CompletedJob> := [];
    for i := 0 to |listing|
      invariant ParsedJobs(tf, listing[..i]) == Some(found)
    {
      assert listing[..i + 1][..i] == listing[..i];
      if listing[i].name == JOB_PREFIX {
        continue;
      }
      var j := ParsedJob(tf, listing[i].name, listing[i].metadata);
      if j.None? {
        ParsedJobsFail(tf, listing, i);
        return None;
      }
      found := found + [j.value];
    }
    assert listing[..|listing|] == listing;
    return Some(found);
  }

  /** The listing shows the objects of these jobs, and perhaps one named by the prefix alone. */
  ghost predicate Shows(tf: TimeFormat, listing: seq<Listed>, recorded: set<CompletedJob>) {
    && (forall o :: o in listing && o.name != JOB_PREFIX ==>
          exists j :: j in recorded && o == Listed(JobObjectName(tf, j), JobMetadata(j)))
    && (forall j :: j in recorded ==> Listed(JobObjectName(tf, j), JobMetadata(j)) in listing)
  }

  lemma {:induction false} ParsedJobsAre(tf: TimeFormat, listing: seq<Listed>, recorded: set<CompletedJob>)
    requires FormatSound(tf) && forall j :: j in recorded ==> Writable(j.startTime)
    requires forall o :: o in listing && o.name != JOB_PREFIX ==>
      exists j :: j in recorded && o == Listed(JobObjectName(tf, j), JobMetadata(j))
    ensures ParsedJobs(tf, listing).Some?
    ensures forall j' :: j' in ParsedJobs(tf, listing).value ==> exists j :: j in recorded && j' == JobToTheSecond(j)
    ensures forall j :: j in recorded && Listed(JobObjectName(tf, j), JobMetadata(j)) in listing && JobObjectName(tf, j) != JOB_PREFIX ==>
      JobToTheSecond(j) in ParsedJobs(tf, listing).value
  {
    if listing != [] {
      var last := |listing| - 1;
      var o, init := listing[last], listing[..last];
      assert listing == init + [o];
      ParsedJobsAre(tf, init, recorded);
      if o.name != JOB_PREFIX {
        var j :| j in recorded && o == Listed(JobObjectName(tf, j), JobMetadata(j));
        JobRoundTrip(tf, j);
      }
      forall j | j in recorded && Listed(JobObjectName(tf, j), JobMetadata(j)) == o && JobObjectName(tf, j) != JOB_PREFIX
        ensures JobToTheSecond(j) in ParsedJobs(tf, listing).value
      {
        JobRoundTrip(tf, j);
      }
    }
  }

  /** Listing finds every job that was recorded, and no other, with its time to the second. */
  lemma RecordedJobsAreListed(tf: TimeFormat, listing: seq<Listed>, recorded: set<CompletedJob>, j': CompletedJob)
    requires FormatSound(tf) && (forall t :: tf.format(t) != "") && Shows(tf, listing, recorded)
    requires forall j :: j in recorded ==> Writable(j.startTime)
    ensures ParsedJobs(tf, listing).Some?
    ensures j' in ParsedJobs(tf, listing).value <==> exists j :: j in recorded && j' == JobToTheSecond(j)
  {
    ParsedJobsAre(tf, listing, recorded);
    if exists j :: j in recorded && j' == JobToTheSecond(j) {
      var j :| j in recorded && j' == JobToTheSecond(j);
      assert tf.format(j.startTime) != "";
      assert |JobObjectName(tf, j)| > |JOB_PREFIX|;
    }
  }

  /** A listing can be read if and only if each object in it, other than that named by the prefix alone, is a job's. */
  lemma {:induction false} ListedIff(tf: TimeFormat, listing: seq<Listed>)
    ensures ParsedJobs(tf, listing).Some? <==>
      forall i :: 0 <= i < |listing| && listing[i].name != JOB_PREFIX ==>
        ParsedJob(tf, listing[i].name, listing[i].metadata).Some?
  {
    if listing != [] {
      var last := |listing| - 1;
      ListedIff(tf, listing[..last]);
      assert forall i :: 0 <= i < last ==> listing[..last][i] == listing[i];
    }
  }
}
